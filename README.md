# Resource discovery of the native-image builder, in Dafny

This project models `ResourcesFeature`, the build feature of the native-image
builder that decides which resource files are embedded in the image. Other
features and configuration files add regular-expression inclusion patterns.
During an analysis iteration with nothing pending the feature does nothing.
Otherwise it:

- asks the builder for another analysis iteration;
- compiles the pending patterns;
- scans the modules of the boot layer with all of them at once;
- scans every classpath element (directory tree or archive) once per pattern;
- registers every matching resource name.

After analysis the feature is sealed, and a late pattern is a user error.
Before compilation, the fallback request is thrown when four things hold:

- the fallback feature is present;
- its resource fallback is set;
- the IncludeResources option is empty;
- no resource configuration file was loaded.

Patterns that other features add through `addResources` do not prevent it.

Files:

- `patterns.dfy` (module `Patterns`): the regular-expression library as an
  `Engine` value (`compiles`, `fullMatch`), the any-pattern whole-string
  test `Matches`, and the order-keeping filter `Keep`.
- `resources.dfy` (module `Resources`): the registry, whose log records each
  registered resource name, and the failures that abort a build step.
- `scanners.dfy` (module `Scanners`): directory trees, archives and modules
  as datatypes; the three scanners as methods that append to the registry;
  the candidate sets they are proved against.
- `feature.dfy` (module `Feature`): pattern compilation, the classpath loops,
  and the class `ResourcesFeature` with its fields `sealed`, `pending` and
  `loadedConfigurations`.

The main result is the contract of `Feature.ResourcesFeature.DuringAnalysis`:

- it asks for another iteration exactly when something was pending on entry;
- with nothing pending it changes nothing;
- it completes exactly when every non-empty pending pattern compiles, every
  module opens (on runtimes with modules) and, if some pattern is non-empty,
  every classpath element is readable;
- when it completes, it empties the pending set, and the set of newly
  registered names is exactly the module and classpath candidates that some
  non-empty pending pattern matches in full;
- when it fails, the pending set is kept and every name registered so far is
  one of those candidates;
- a syntax failure registers nothing.

Three behaviours of the code are easy to misread, and the model states
them as the code has them:

- Another iteration is requested whenever the pending set is non-empty on
  entry (`ResourcesFeature.java:114-118`), whether or not a pattern is added
  while the pass runs.
- The classpath is scanned once per pattern (`ResourcesFeature.java:130-167`),
  so a classpath file that two patterns match is registered twice. The model
  states properties of the *set* of registered names only.
- The pending set is cleared only after a pass completes
  (`ResourcesFeature.java:168`), so a failed pass leaves it unchanged.

## Model

| member | source | states |
|---|---|---|
| `Patterns.Matches` | substratevm/src/com.oracle.svm.hosted/src/com/oracle/svm/hosted/ResourcesFeature.java:241-248 | true exactly when some pattern of the array matches the whole path; false for an empty array |
| `Patterns.MatchesBySet` | substratevm/src/com.oracle.svm.hosted/src/com/oracle/svm/hosted/ResourcesFeature.java:120-124 | the verdict depends only on which patterns the array holds, not on the order in which the unordered pending set was turned into an array |
| `Patterns.MatchesOneOf` | substratevm/src/com.oracle.svm.hosted/src/com/oracle/svm/hosted/ResourcesFeature.java:126-167 | a path matches the combined array (module scan) iff it matches the one-pattern array of some member (classpath scan) |
| `Patterns.DirectoryMarker` | substratevm/src/com.oracle.svm.hosted/src/com/oracle/svm/hosted/ResourcesFeature.java:213 | `EndsWithSlash`, the directory-marker test, holds exactly when the name is some path followed by '/' |
| `Patterns.Keep` | substratevm/src/com.oracle.svm.hosted/src/com/oracle/svm/hosted/ResourcesFeature.java:228-230 | the order-keeping filter used by the archive and module scans; its result is never longer than the listing (its members are stated by `KeepMembers`) |
| `Patterns.KeepMembers` | substratevm/src/com.oracle.svm.hosted/src/com/oracle/svm/hosted/ResourcesFeature.java:228-230 | the filtered listing holds exactly the listed names that pass the filter |
| `Patterns.KeepSnoc` | substratevm/src/com.oracle.svm.hosted/src/com/oracle/svm/hosted/ResourcesFeature.java:228-230 | filtering one more name extends the result by that name exactly when it passes, keeping listing order |
| `Resources.Registry.Register` | substratevm/src/com.oracle.svm.hosted/src/com/oracle/svm/hosted/ResourcesFeature.java:250-253 | registering a resource appends its name to the registry log |
| `Scanners.Extend` | substratevm/src/com.oracle.svm.hosted/src/com/oracle/svm/hosted/ResourcesFeature.java:188-196 | the path the walk builds for a file below `rel` starts with `rel`, and is `rel` itself for the directory's own node |
| `Scanners.JoinTwice` | substratevm/src/com.oracle.svm.hosted/src/com/oracle/svm/hosted/ResourcesFeature.java:195 | joining two names in turn below a path equals joining once with the two names separated by '/' |
| `Scanners.ExtendJoins` | substratevm/src/com.oracle.svm.hosted/src/com/oracle/svm/hosted/ResourcesFeature.java:195 | with non-empty names, the path the walk builds below `rel` with the child-path join of line 195 (the bare name below "", otherwise the parent's path, '/', the name) is `rel` joined to the segments separated by '/' |
| `Scanners.RootPath` | substratevm/src/com.oracle.svm.hosted/src/com/oracle/svm/hosted/ResourcesFeature.java:159 | starting from the empty relative path, the walk's path is the segments joined by '/', with no leading '/' |
| `Scanners.LeafSegments` | substratevm/src/com.oracle.svm.hosted/src/com/oracle/svm/hosted/ResourcesFeature.java:190-196 | in a tree of names a listing can produce, every file's segments are non-empty names without '/' |
| `Scanners.DirectoryPaths` | substratevm/src/com.oracle.svm.hosted/src/com/oracle/svm/hosted/ResourcesFeature.java:156-159 | the walk of a classpath directory starts at that directory with its own listing; every file under it is tested under its segments below that directory joined by '/'; that path is never empty and has no leading '/', so "" is never a candidate |
| `Scanners.LeavesInPrefix` | substratevm/src/com.oracle.svm.hosted/src/com/oracle/svm/hosted/ResourcesFeature.java:194-196 | the files under the first `i` children of a directory are among the files under all of them |
| `Scanners.ChildHitsSnoc` | substratevm/src/com.oracle.svm.hosted/src/com/oracle/svm/hosted/ResourcesFeature.java:194-196 | scanning one more child with path `rel/name` adds exactly the matching files under that child |
| `Scanners.LeavesInMember` | substratevm/src/com.oracle.svm.hosted/src/com/oracle/svm/hosted/ResourcesFeature.java:194-196 | every file path under a directory's children starts with the name of one of them |
| `Scanners.UnlistableEmpty` | substratevm/src/com.oracle.svm.hosted/src/com/oracle/svm/hosted/ResourcesFeature.java:190-196 | a walk has a directory it cannot list exactly when some directory at or below the node does not list |
| `Scanners.UnlistableInEmpty` | substratevm/src/com.oracle.svm.hosted/src/com/oracle/svm/hosted/ResourcesFeature.java:194-196 | the children of a directory all list in full exactly when none of their walks has a directory it cannot list |
| `Scanners.UnlistableInMember` | substratevm/src/com.oracle.svm.hosted/src/com/oracle/svm/hosted/ResourcesFeature.java:194-196 | a directory that one child's walk cannot list is one the parent's walk cannot list |
| `Scanners.FileHits` | substratevm/src/com.oracle.svm.hosted/src/com/oracle/svm/hosted/ResourcesFeature.java:198-203 | a file reached under path `rel` is selected exactly when `rel` matches, and then only `rel` is |
| `Scanners.ChildStep` | substratevm/src/com.oracle.svm.hosted/src/com/oracle/svm/hosted/ResourcesFeature.java:194-196 | after scanning one more child, what was registered is among the matching files under all children, and, when that child's walk completed, exactly those under the children scanned so far |
| `Scanners.ScanDirectory` | substratevm/src/com.oracle.svm.hosted/src/com/oracle/svm/hosted/ResourcesFeature.java:188-205 | fails exactly when some directory in the tree cannot be listed, naming the relative path of a directory that does not list; otherwise registers exactly the files (never directories) whose walk path matches; on failure every registered name is still a matching file path, and none lies below a directory that does not list |
| `Scanners.ScanJar` | substratevm/src/com.oracle.svm.hosted/src/com/oracle/svm/hosted/ResourcesFeature.java:208-222 | fails, registering nothing, exactly when the archive cannot be opened; otherwise appends, in entry order, every entry not ending in '/' that matches, under its own name |
| `Scanners.ScanModule` | substratevm/src/com.oracle.svm.hosted/src/com/oracle/svm/hosted/ResourcesFeature.java:227-234 | appends the module's listed names that match and that open to something, in listing order |
| `Scanners.ModuleSelected` | substratevm/src/com.oracle.svm.hosted/src/com/oracle/svm/hosted/ResourcesFeature.java:228-234 | what one module's scan registers is never longer than its listing (its members are stated by `ModuleSelectedMembers`) |
| `Scanners.ModuleSelectedMembers` | substratevm/src/com.oracle.svm.hosted/src/com/oracle/svm/hosted/ResourcesFeature.java:228-234 | one module's scan registers exactly its listed names that match and that open to something |
| `Scanners.FindResourcesInModules` | substratevm/src/com.oracle.svm.hosted/src/com/oracle/svm/hosted/ResourcesFeature.java:224-239 | succeeds exactly when every module opens, appending what each module's scan selects; otherwise stops at the first module that does not open, keeping what the earlier ones registered |
| `Scanners.ModuleStep` | substratevm/src/com.oracle.svm.hosted/src/com/oracle/svm/hosted/ResourcesFeature.java:224-239 | scanning one more module extends the log of the modules before it by that module's selection |
| `Scanners.ModuleCandidatesPrefix` | substratevm/src/com.oracle.svm.hosted/src/com/oracle/svm/hosted/ResourcesFeature.java:224-239 | the modules scanned before an abort offer no candidate the whole boot layer does not; only a module that opens offers candidates |
| `Scanners.ModulesSelectedElems` | substratevm/src/com.oracle.svm.hosted/src/com/oracle/svm/hosted/ResourcesFeature.java:224-239 | for modules that all open, the names their scan registers are exactly the listed, present module names that the patterns match |
| `Scanners.DirHitsSelected` | substratevm/src/com.oracle.svm.hosted/src/com/oracle/svm/hosted/ResourcesFeature.java:158-159 | a walk of a classpath directory from itself with "" selects exactly its file candidates that match |
| `Scanners.ScanElement` | substratevm/src/com.oracle.svm.hosted/src/com/oracle/svm/hosted/ResourcesFeature.java:156-166 | a directory is walked from itself and anything else read as an archive; fails exactly when the element is unreadable, with a failure naming the element (and the directory below it that does not list); what it registers is always among its matching candidates, which exclude the entries of an archive that does not open and the files below a directory that does not list; on success it registers exactly those candidates |
| `Scanners.FailsWithUnreadable` | substratevm/src/com.oracle.svm.hosted/src/com/oracle/svm/hosted/ResourcesFeature.java:156-166 | a classpath element has a failure to abort the pass with (a directory below it that does not list, at line 192, or an archive that does not open, at line 164) exactly when it is not readable |
| `Feature.SelectedChosen` | substratevm/src/com.oracle.svm.hosted/src/com/oracle/svm/hosted/ResourcesFeature.java:241-248 | matching against an array equals matching against the set of its patterns |
| `Feature.Live` | substratevm/src/com.oracle.svm.hosted/src/com/oracle/svm/hosted/ResourcesFeature.java:120-121 | the compiled patterns are the pending ones minus the empty source, and every other pending source is among them |
| `Feature.ChosenAddPattern` | substratevm/src/com.oracle.svm.hosted/src/com/oracle/svm/hosted/ResourcesFeature.java:130-167 | scanning with one more pattern adds exactly the candidates that pattern matches |
| `Feature.ChosenAddElement` | substratevm/src/com.oracle.svm.hosted/src/com/oracle/svm/hosted/ResourcesFeature.java:156-166 | scanning one more classpath element adds exactly its matching candidates |
| `Feature.CompilePatterns` | substratevm/src/com.oracle.svm.hosted/src/com/oracle/svm/hosted/ResourcesFeature.java:120-124 | succeeds iff every non-empty pending source compiles, returning each non-empty source exactly once; otherwise fails with a syntax error naming a non-empty pending source that does not compile |
| `Feature.ScanClasspath` | substratevm/src/com.oracle.svm.hosted/src/com/oracle/svm/hosted/ResourcesFeature.java:142-166 | scans each classpath element once with one pattern; fails exactly when some element is unreadable, with a failure naming that element; registers only candidates the pattern matches (never an entry of an archive that does not open), and exactly those on success |
| `Feature.ScanClasspathPerPattern` | substratevm/src/com.oracle.svm.hosted/src/com/oracle/svm/hosted/ResourcesFeature.java:130-167 | runs the classpath scan once per pattern; fails iff there is a pattern and an unreadable element, with a failure naming such an element; registers only candidates some pattern matches (never an entry of an archive that does not open), and exactly those on success |
| `Feature.ScanBootModules` | substratevm/src/com.oracle.svm.hosted/src/com/oracle/svm/hosted/ResourcesFeature.java:126-128 | the module scan with the compiled array succeeds iff every boot module opens; what it registers is among the names, listed by a module that opens, that some live pattern matches, and exactly those on success |
| `Feature.OnlyEmptyPattern` | substratevm/src/com.oracle.svm.hosted/src/com/oracle/svm/hosted/ResourcesFeature.java:120-124 | a pending set holding only "" selects nothing, and the pass then fails only if a module cannot be opened |
| `Feature.ResourcesFeature.constructor` | substratevm/src/com.oracle.svm.hosted/src/com/oracle/svm/hosted/ResourcesFeature.java:79-81 | a new feature is unsealed, with nothing pending and no configurations loaded |
| `Feature.ResourcesFeature.AddResources` | substratevm/src/com.oracle.svm.hosted/src/com/oracle/svm/hosted/ResourcesFeature.java:85-88 | before sealing, inserts the pattern into the pending set (a repeat changes nothing); after sealing, fails with a late-registration error naming the pattern and leaves the pending set unchanged; never changes `sealed` |
| `Feature.ResourcesFeature.BeforeAnalysis` | substratevm/src/com.oracle.svm.hosted/src/com/oracle/svm/hosted/ResourcesFeature.java:102-110 | records the number of loaded configurations and adds the IncludeResources values to the pending set |
| `Feature.ResourcesFeature.DuringAnalysis` | substratevm/src/com.oracle.svm.hosted/src/com/oracle/svm/hosted/ResourcesFeature.java:113-169 | no-op when nothing is pending; otherwise requests an iteration, completes exactly when all patterns compile and every module and classpath element it touches is readable, then clears the pending set and has registered exactly the matching candidates; a failure keeps the pending set; a syntax failure names a non-empty pattern that does not compile and registers nothing; the internal error comes only from a module that does not open, and by then only module candidates were registered; any other failure names an unreadable classpath element, and comes after every module opened |
| `Feature.ResourcesFeature.AfterAnalysis` | substratevm/src/com.oracle.svm.hosted/src/com/oracle/svm/hosted/ResourcesFeature.java:172-174 | sets `sealed` and changes nothing else |
| `Feature.ResourcesFeature.BeforeCompilation` | substratevm/src/com.oracle.svm.hosted/src/com/oracle/svm/hosted/ResourcesFeature.java:177-185 | throws the fallback request exactly when the fallback feature is present, its resource fallback is set, IncludeResources is empty and no configuration was loaded |

## Left out

- The regular-expression engine is not modelled: compiling and whole-string
  matching are the two function values of `Patterns.Engine`.
- File, archive and module I/O is not modelled. A directory tree, an archive's
  entry list and a module's listing are given as values. Resource contents
  are opaque, so the registry records names only. It does not model the
  registry's storage or that a later registration of a name replaces the
  earlier content.
- Opening a matched file, archive entry or module entry is assumed to
  succeed. A failure there aborts the build in the source (lines 163-164
  and 235-236). Closing streams is not modelled either.
- Turning class-loader URLs into files is not modelled, nor the abort on a
  malformed URL (lines 144-154). The classpath is a given sequence of
  elements. A context class loader that is not a URL class loader
  corresponds to an empty sequence.
- Configuration-file parsing (lines 103-107) is not modelled:
  `BeforeAnalysis` takes the number of loaded configurations as a parameter.
  The patterns those files contribute arrive through `AddResources`.
- The Java-version test at line 126 is the parameter `hasModules` of
  `DuringAnalysis`.
- `ImageSingletons` lookups, `afterRegistration`, debug logging and
  `addResourceBundles` (which only forwards to the localization feature) are
  framework plumbing and are not modelled.
- The pending set is a concurrent set in the source. The model is
  sequential, so patterns added by other threads while a pass runs are out
  of scope. This includes the fact that the final clear at line 168 would
  discard such patterns.
- Iteration order of sets (the pending set, the classpath set) is
  unspecified. The model picks an arbitrary element, so the contracts hold
  for every order.
- The wording of the abort messages is not modelled. A failure carries what
  the message names: the pattern, the classpath element's path, and for a
  directory that does not list, its path relative to the classpath
  directory (the source prints the full file path, line 192). The internal
  error for a module that does not open (lines 235-236) names no module, as
  in the source.
