/**
 * The process exit statuses of the `commands` package. The source passes
 * them to `os.Exit`; here a command returns one of them instead. Their
 * numeric values are not part of this model, only their distinctness.
 */
module Commands {
  datatype ExitCode =
    | Success        // the command ran to its end
    | ErrGeneric     // the environment cannot satisfy the request
    | ErrNetwork     // a fetch request or a transfer failed
    | ErrCoreConfig  // the hardware catalog could not be loaded
    | ErrBadCall     // the user's arguments cannot be satisfied
}
