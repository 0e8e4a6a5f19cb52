/** The types that the platform, the core and the applications share. */
module Api {
  datatype Error =
    | InvalidPath
    | NotFound(path: string)
    | AlreadyExists(path: string)
    | NotDirectory(path: string)
    | IsDirectory(path: string)
    | ReadOnly(path: string)
    | PermissionDenied
    | CapabilityNotDeclared
    | AuthenticationFailed
    | RateLimited(milliseconds: nat)
    | InvalidInput
    | ResourceLimit
    | Unsupported
    | Io

  datatype StorageEntry = StorageEntry(name: string, isDir: bool, len: nat)

  datatype Capability =
    | FsRead(path: string)
    | FsWrite(path: string)
    | Clock
    | SystemInfo
    | Network(host: string)

  datatype AppIdentity = AppIdentity(id: string, trusted: bool, capabilities: seq<Capability>)
}
