/**
 * The host operations the plugin calls but that are not part of this model:
 * Node's `path.resolve`, `path.relative` and `path.dirname`, and Vite's
 * `normalizePath`. They are opaque functions, supplied by the caller.
 */
module Host {

  datatype PathOps = PathOps(
    resolve: (string, string) -> string,
    relative: (string, string) -> string,
    dirname: string -> string,
    normalizePath: string -> string)
}
