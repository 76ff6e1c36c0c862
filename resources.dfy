/**
 * The process-wide resource registry the scanners write into, and the
 * failures that abort a build step.
 */
module Resources {

  datatype Option<T> = None | Some(value: T)

  /** Why a step of the resource feature aborted the build. */
  datatype Failure =
    | LateRegistration(pattern: string)  // a pattern added after analysis sealed the feature
    | PatternSyntax(pattern: string)     // a pending pattern the regex compiler rejects
    | DirectoryUnreadable(element: string, dir: string)  // listing the directory at relative path `dir` of classpath directory `element` failed
    | ClasspathElementUnreadable(element: string)        // the classpath element `element` could not be opened as an archive
    | ModuleUnreadable                   // a boot-layer module could not be opened (internal error)

  datatype Result<T> = Ok(value: T) | Err(failure: Failure)

  /**
   * The registry of resource names. Contents are opaque to this model, so
   * each registration appends the resource's name to `log`; registering a
   * name again appends it again.
   */
  class Registry {
    var log: seq<string>

    constructor ()
      ensures log == []
    {
      log := [];
    }

    method Register(name: string)
      modifies this
      ensures log == old(log) + [name]
    {
      log := log + [name];
    }
  }
}
