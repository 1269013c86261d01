# dotfiles-manager core, modelled in Dafny

dotfiles-manager keeps a tree of dotfile templates. The builder renders every `.tpl`
file into a build tree and copies every other file there as it is. The linker mirrors the
build tree into the link tree (usually the home directory), replacing each file with a
symbolic link to its built counterpart. The peeker walks the template tree and lists every
variable the templates use. Failures do not stop a walk: each one is tagged with the path
it concerns and collected into an `Errors` value that is reported at the end.

The model is pure. The file system is a tree of recorded outcomes (`Walker.Node`): what
creating each mirror directory returned, and what listing each directory returned, entry by
entry. Per-file I/O, the template engine and the TOML parser are functions passed in as
parameters. The three walks share one generic walk, `Walker.Dir`. Each instantiates it
with its own file action, an optional destination root (only the builder and the linker
create directories) and a way to combine the values of successful children.

Files:

- `wrappers.dfy`: `Option` and `Result`.
- `paths.dfy`: Rust's `std::path` as the core uses it. It covers components, `join`,
  `file_name`, `extension`/`file_stem` and `set_extension("")`.
- `error.dfy`: located errors and the `Errors` collection.
- `text.dfy`: string ordering, sort-and-dedup, `trim`, lower-casing.
- `walker.dfy`: the shared directory walk.
- `blueprint.dfy`: the template engine's interface.
- `configuration.dfy`: the run configuration.
- `builder.dfy`, `linker.dfy`, `peeker.dfy`: the three commands.

Three behaviours of the code are easy to misread:

- `get_username` takes `USER` whenever it is set to valid Unicode, even when it is empty;
  only a `USER` that is unset or not valid Unicode falls back to `USERNAME`.
- The linker puts one `..` in front of a relative build path for each `.` component after
  the first in the link path. The component iterator never yields such a component, so the
  link target is always the build path itself (`Linker.SymlinkTargetIsBuildPath`).
- A file named `..tpl` or `...tpl` is a template too: its stem is `.` or `..` and its
  extension `tpl`. Removing the extension then leaves `.` or `..` as the last piece of the
  output path, so the output path names the build directory itself or its parent. The
  model computes this as the code does.

## Model

| member | source | states |
|---|---|---|
| `Error.Default` | src/error.rs:5-8 | the default collection holds no error |
| `Error.FromVec` | src/error.rs:30-34 | the collection holds exactly the given errors, in order |
| `Error.Single` | src/error.rs:36-45 | converting one error gives a non-empty collection holding just that error |
| `Error.IsEmpty` | src/error.rs:52-54 | a collection is empty when it holds no error (what emptiness means for joins is `Error.JoinEmpty`) |
| `Error.Join` | src/error.rs:48-50 | joining keeps the first collection's errors and appends the second's after them, in order |
| `Error.JoinIdentity` | src/error.rs:48-50 | joining with an empty collection on either side changes nothing |
| `Error.JoinAssociative` | src/error.rs:48-50 | the order in which a run of joins is grouped does not matter |
| `Error.JoinEmpty` | src/error.rs:52-54 | a joined collection is empty exactly when both parts are empty |
| `Error.Locate` | src/error.rs:80-85 | tagging a failure keeps the failure and records the given path |
| `Error.WithLocation` | src/error.rs:88-99 | success passes through with its value unchanged; a failure keeps its cause and gets the given path |
| `Error.LocateIo` | src/error.rs:88-99 | an I/O failure becomes an I/O error located at the given path; success passes through |
| `Error.Log` | src/error.rs:56-66 | nothing is logged for an empty collection; otherwise one header with the count, then for error i its index and location, then its message |
| `Paths.JoinPath` | src/builder.rs:58-59 | a relative path is appended below the base; an absolute one replaces it |
| `Paths.JoinPathAssociative` | src/builder.rs:78 | joining relative pieces one at a time gives the same path as joining them together first |
| `Paths.ComponentsPushName` | src/builder.rs:78 | joining a file name adds exactly that name as the last component, and it becomes the file name |
| `Paths.ExtensionSplits` | src/builder.rs:115 | a name with an extension is its non-empty stem, a dot and a dot-free extension; a name without one is its own stem |
| `Paths.SplitComposed` | src/builder.rs:115 | a non-empty stem joined to a dot-free extension splits back into exactly those two parts |
| `Paths.SetExtensionEmpty` | src/builder.rs:141 | `set_extension("")` keeps whether the path is absolute, and leaves a path without a file name unchanged; what it does to a file name is `Paths.SetExtensionEmptyRenames` |
| `Paths.SetExtensionEmptyRenames` | src/builder.rs:141 | removing the extension keeps every component but the last, which becomes the stem, and the file name becomes the stem |
| `Text.SortDedup` | src/peeker.rs:69-70 | the result is strictly increasing and has exactly the input's elements |
| `Text.StrictlySortedUnique` | src/peeker.rs:69-70 | two strictly increasing lists with the same elements are equal, so sort-and-dedup has one possible result |
| `Text.LessTransitive` | src/peeker.rs:69 | the string order used for sorting is transitive |
| `Text.LessTotal` | src/peeker.rs:69 | any two different strings are ordered one way or the other |
| `Text.Trim` | src/builder.rs:191 | the trimmed text neither starts nor ends with whitespace |
| `Text.TrimRemovesPadding` | src/builder.rs:191 | trimming removes exactly the surrounding whitespace and nothing inside |
| `Text.ToLower` | src/builder.rs:204 | same length; every ASCII capital becomes its small letter and nothing else changes |
| `Walker.FirstMetaError` | src/builder.rs:77-78 | the listing stops at the first entry whose metadata cannot be read, with the error located at that entry's path; no error exactly when every entry's metadata was read |
| `Walker.ListingError` | src/builder.rs:70-78 | the listing fails exactly when opening the directory, reading some entry's metadata, or fetching the next entry fails. An opening failure is located at the directory. Otherwise the first metadata failure is reported, at its entry's path, even when fetching a later entry failed. Failing that, a failure to fetch the next entry is reported, located at the directory |
| `Walker.FileErrors` | src/builder.rs:92-96 | no more failures than results, and none exactly when every file succeeded |
| `Walker.FileErrorsMembers` | src/builder.rs:92-96 | an error is collected exactly when some file result is that failure |
| `Walker.FileErrorsAppend` | src/builder.rs:92-96 | the failures of two runs of results are the first run's followed by the second's, so the failures keep the results' order |
| `Walker.JoinAll` | src/builder.rs:97-99 | the joined errors are empty exactly when the start and every failed subdirectory's errors are |
| `Walker.JoinAllConcatenates` | src/builder.rs:97-99 | joining the subdirectory errors one by one appends them all in listing order |
| `Walker.Merge` | src/builder.rs:88-106 | the level succeeds exactly when every file and every subdirectory did, with the combined values of files then subdirectories; a failure is never empty |
| `Walker.FileResults` | src/builder.rs:77-86 | no more results than entries; that they are one per regular file in listing order is `Walker.FileResultsMembers` with `Walker.FileResultsAppend` |
| `Walker.FileResultsAppend` | src/builder.rs:77-86 | the file results of two runs of entries are the first run's followed by the second's, so the results keep the listing order |
| `Walker.FileResultsMembers` | src/builder.rs:77-86 | every regular file's outcome is among the file results, and every file result is the outcome of some regular file listed |
| `Walker.DirResults` | src/builder.rs:77-86 | no more results than entries, and a failed subdirectory never reports an empty collection; that they are one walk per subdirectory in listing order is `Walker.DirResultsPositions` |
| `Walker.DirResultsPositions` | src/builder.rs:77-86 | there are exactly as many results as subdirectories listed, and the walk of each subdirectory comes right after those of the subdirectories listed before it |
| `Walker.FileResultsOkIff` | src/builder.rs:77-86 | the file results all succeed exactly when the action succeeds on every regular file listed |
| `Walker.DirResultsOkIff` | src/builder.rs:77-86 | the subdirectory results all succeed exactly when the walk succeeds on every listed subdirectory |
| `Walker.Healthy` | src/builder.rs:58-107 | the reference definition of a successful walk: the mirror directory exists or was created, the listing succeeds, every regular file's action succeeds and every subdirectory is healthy |
| `Walker.Dir` | src/builder.rs:58-107 | a mirror directory that cannot be created, other than one that already exists, fails the level with that one error at the destination; a listing failure fails it with that one error; any failure is non-empty |
| `Walker.DirOkIff` | src/builder.rs:58-107 | the walk succeeds exactly when every directory below is created and listed and every regular file's action succeeds |
| `Walker.DirErrorOrder` | src/builder.rs:88-100 | a failed level reports its files' failures in listing order, followed by each failed subdirectory's errors in listing order |
| `Walker.FileFailureReported` | src/builder.rs:77-106 | a failing file of a listed directory fails the walk, and its error is among those reported |
| `Walker.FileErrorsContain` | src/builder.rs:92-96 | a failing regular file's error is among the collected file failures |
| `Walker.NoDestinationIgnoresMkdir` | src/peeker.rs:22-29 | the peeker's walk creates nothing, so directory creation has no bearing on its outcome |
| `Builder.Username` | src/builder.rs:167-172 | `USER` when set to valid Unicode (even empty), else `USERNAME` likewise, else the empty string |
| `Builder.Hostname` | src/builder.rs:174-193 | the trimmed hostname file, else the trimmed `hostname` output, else empty; never padded with whitespace |
| `Builder.OperatingSystem` | src/builder.rs:195-205 | the trimmed, lower-cased `uname` output, or `unknown` without it; no capital letters remain |
| `Builder.Computed` | src/builder.rs:22-24 | exactly `hostname`, `username` and `os` are bound, to the host's values |
| `Builder.ConvertValue` | src/builder.rs:33-37 | strings and booleans convert to the same value; every other kind has no conversion |
| `Builder.ConvertTable` | src/builder.rs:32-40 | the whole table converts, key for key, unless some value is neither a string nor a boolean |
| `Builder.FileBindings` | src/builder.rs:27-43 | an unreadable variables file adds nothing; a parse failure is a TOML error and an unsupported value a type error, both at the variables path |
| `Builder.BuildEnv` | src/builder.rs:20-47 | fails exactly when the variables file does, with that one error; otherwise binds the computed names, the file's keys and the flags, flags to true, file values over computed ones |
| `Builder.MapTemplateError` | src/builder.rs:134-137 | an engine failure becomes a template error with the same message; success passes through |
| `Builder.IsTemplate` | src/builder.rs:115 | a file is a template exactly when its extension is `tpl` (the contract is `Builder.OutputPathStripsExtension`) |
| `Builder.OutputPath` | src/builder.rs:111-141 | a template's output is its build path with the extension removed; any other file keeps its build path (the contract is `Builder.OutputPathStripsExtension`) |
| `Builder.File` | src/builder.rs:109-165 | a plain file is copied, and a copy failure is that I/O error at the template path. A template succeeds exactly when it opens, reads, has readable permissions, parses and renders, and its output is created, receives exactly the rendered bytes and gets the template's permissions. Open, read and permission failures are the I/O error of that step, and parse and render failures are template errors with the engine's message, all located at the template path. Once the template renders, each output failure is the I/O error of that step, located at the output path |
| `Builder.OutputPathStripsExtension` | src/builder.rs:115-141 | a file is a template exactly when its extension is `tpl`; a template `<stem>.tpl` is rendered to `<stem>` in the matching build directory; other files keep their path |
| `Builder.Dir` | src/builder.rs:58-107 | an uncreatable build directory fails the level with that error at the build path; the walk succeeds exactly when everything below is healthy |
| `Builder.BuildTree` | src/builder.rs:20-55 | a failure to build the bindings ends the run with that error; otherwise the run succeeds exactly when the whole template tree builds |
| `Linker.SymlinkTarget` | src/linker.rs:77-89 | an absolute build path is the target as it is; a relative one gets one `..` in front of it per `.` component after the first in the link path (the contract is `Linker.SymlinkTargetIsBuildPath`) |
| `Linker.NoDotAfterFirstComponent` | src/linker.rs:83-85 | no `.` component follows the first, so no `..` is ever prepended |
| `Linker.SymlinkTargetIsBuildPath` | src/linker.rs:77-89 | the link always points at the build path, absolute or relative |
| `Linker.File` | src/linker.rs:64-96 | a removal failure other than not-found fails at the link path before linking; otherwise the result is the symlink's to the build path; all failures are at the link path |
| `Linker.RemovalFailureSkipsSymlink` | src/linker.rs:68-74 | when removal fails for another reason, the outcome is that failure whatever `symlink` would do |
| `Linker.Dir` | src/linker.rs:15-62 | an uncreatable link directory fails the level with that error at the link path; the walk succeeds exactly when everything below is healthy |
| `Linker.LinkTree` | src/linker.rs:10-12 | linking succeeds exactly when the whole build tree is healthy; a failure is never empty |
| `Peeker.Flatten` | src/peeker.rs:52-66 | an element is in the concatenation exactly when it is in one of the parts |
| `Peeker.File` | src/peeker.rs:77-99 | a non-template lists nothing; a read failure is an I/O error at the file; otherwise it lists the parsed template's variables, and a parse failure is a template error with the engine's message at the file |
| `Peeker.Combine` | src/peeker.rs:49-71 | a level's list is strictly increasing and holds exactly the names of its children's lists |
| `Peeker.Dir` | src/peeker.rs:22-75 | succeeds exactly when everything below is healthy, with a strictly increasing list of exactly the variables the templates below name |
| `Peeker.Variables` | src/peeker.rs:22-75 | the reference definition of what the peeker collects: the variables of every template whose action succeeds, anywhere below the directory |
| `Peeker.DirVariables` | src/peeker.rs:22-75 | a successful walk collects exactly the reference set of variables |
| `Peeker.LevelVariables` | src/peeker.rs:34-66 | over a healthy level, the file and subdirectory lists together name exactly the reference variables of its entries |
| `Peeker.PrintVariables` | src/peeker.rs:13-19 | the printed lines are strictly increasing, so each variable is printed once, and they are exactly the variables the templates name |

## Left out

- File-system calls, process spawning and environment lookups are outcomes passed in as
  parameters, not performed. The peeker's `println!` is modelled only as the list of lines
  it prints.
- Logging is left out: the `info!` and `debug!` messages of the walkers and the file
  actions, and the dump of the environment in `build_tree`, have no effect on any result.
- The concurrency of the walks is left out. `join_all` returns results in task order, and a
  listing failure returns before any task runs, so a sequential fold gives the same results.
- The template engine (`blueprint`) and the TOML parser are parameters. Rendering and
  parsing are not modelled.
- The `unwrap` of the rendered output as UTF-8 is not modelled; in the source it would
  panic on invalid output.
- Permissions are opaque 32-bit values copied from the template to the output.
- `Error.Log`: the text of the log lines is not modelled, only their order and content.
- `Text.ToLower`: lower-cases ASCII letters only; Rust's `to_lowercase` covers all of
  Unicode.
- `Builder.OperatingSystem`: inherits the ASCII-only lower-casing of `Text.ToLower`.
- The variables table is a map, converted as a whole and in no particular order. Its keys
  are distinct, so the order the source visits them in does not change the bindings or
  whether a type error occurs.
- `Paths.SetExtensionEmptyRenames`: covers only stems that are ordinary names, not the
  stems `.` and `..` of files named `..tpl` and `...tpl`.
- `Paths.SetExtensionEmpty`: inherits the same restriction; for those two stems the result
  is computed but no property of it is stated.
- `Builder.OutputPathStripsExtension`: states the stripped output path only for templates
  whose stem is an ordinary name, so not for `..tpl` and `...tpl`.
- `Builder.OutputPath`: inherits the same restriction through
  `Builder.OutputPathStripsExtension`.
- src/main.rs (argument parsing, logger set-up, command dispatch) is not part of this model,
  apart from the shape of `Config`.
