# go.1ink.us core logic in Dafny

This project models the deterministic logic of the go.1ink.us project gallery and proves properties about it. The logic comes from four places:

- **Tag index** (`constants.dfy`, module `Constants`): the category table `CATEGORIES` and the loop that inverts it into `TAG_TO_CATEGORIES`. The loop is a `method` with nested loops that update a local map in place. It is proved equal to a declarative index `TagIndex`, and the properties of the index are lemmas about `TagIndex`. The icon and theme tables are constants whose keys are checked against the category table.
- **Catalog validator** (`verify_data.dfy`, module `DataCheck`): the `verify_data.js` script.
  - It builds the set of valid tags.
  - It checks every project's `tags` shape and tags, and its required fields.
  - It maps the sticky `hasError` flag to an exit code.

  JavaScript values are the datatype `Value`, with JavaScript truthiness. The error messages become a list of `Report` records. `process.exit` becomes the returned exit code. The shipped catalog is modelled as a constant, and it is proved to pass.
- **Deployment planning** (`deploy.dfy`, module `Deploy`): `collect_deployment_tasks` from `deploy.py`.
  - **Walk input.** The local directory is an input tree (`Node`).
  - **Walk order.** `os.walk` in its top-down mode is modelled the way CPython implements it: a stack of pending directories; the loop body sees one directory; the sub-directories left in its list after the body has pruned `.git` are pushed in reverse.
  - **Path strings.**
    - `os.path.join` follows the POSIX rules, with the local separator as a parameter.
    - `os.path.relpath` is modelled by its result on the walk's own roots: the names joined by the separator, or `.` for the root.
    - `str.replace(os.sep, '/')` is `Slashed`.
  - **Specification.** The method is proved to emit exactly the remote paths and upload pairs of a declarative walk (`DirPaths`, `FilePaths`).
  - **Properties.** Lemmas about that walk prove pruning, parent-before-child order, path prefixes, counts and uniqueness.
- **HTML charset rewrite** (`vite_config.dfy`, module `HtmlCharset`): `transformIndexHtml`. It is a global, non-overlapping, left-to-right replacement of `<link rel="stylesheet"` by the same text followed by ` charset="utf-8"`. The scan `ReplaceAll` is stated for any text and replacement; the lemmas about it assume the text is marked (its first character appears nowhere else in the replacement), and `LinkIsMarked` shows the shipped texts are.
  - `RemoveCharset` is its inverse.
  - The link text cannot overlap itself, because `<` appears only at its start. So the number of positions where it starts equals the number of non-overlapping matches the regular expression replaces.

Two behaviours of the code are stated as written:

- **The remote root.** The first entry of `dirs_to_create` is `remote_path` verbatim, without the separator replacement that every other entry gets. Every other remote path starts with the remote root after that replacement. The two coincide when the remote root contains no local separator, which `RemotePathShape` states.
- **Pruning `.git`.** `dirs.remove('.git')` drops only the first entry called `.git`. The lemmas about pruning therefore assume what a real directory listing guarantees: the names in a directory are distinct.

## Model

| member | source | states |
|---|---|---|
| Constants.BuildTagToCategories | src/constants.js:25-31 | The nested loop that creates and pushes into index entries yields exactly `TagIndex(cats)`. Its keys are the listed tags. Each entry holds the categories listing the tag, once per listing, in table order. |
| Constants.AllTagsMembership | src/constants.js:25-29 | A tag is among the collected tags iff some category lists it. |
| Constants.TagIndexEntries | src/constants.js:25-29 | The index keys are exactly the tags some category lists. Every entry is non-empty. |
| Constants.CategoriesOfMembership | src/constants.js:26-30 | Category `c` is in the entry of `t` iff some category named `c` lists `t`. Both directions hold, so the loop adds nothing else. |
| Constants.CategoriesOfLength | src/constants.js:27-29 | The length of the entry of `t` is the number of occurrences of `t` across all tag lists. `push` does not de-duplicate. |
| Constants.CountIsMultiplicity | src/constants.js:27-29 | The occurrence count of a tag in a list is its multiplicity in the list's multiset. |
| Constants.CategoriesOfOrder | src/constants.js:26-29 | Within an entry, the categories appear in the iteration order of the category table. |
| Constants.SingleCategoryPerTag | src/constants.js:26-30 | If the lists have no duplicates and are pairwise disjoint, every listed tag has exactly one category. |
| Constants.ShippedListsHaveNoDuplicates | src/constants.js:3-6 | No shipped tag list repeats a tag. |
| Constants.ShippedListsAreDisjoint | src/constants.js:3-6 | No tag occurs in two shipped categories. |
| Constants.ShippedIndexHasOneCategoryPerTag | src/constants.js:2-31 | Every entry of the shipped `TAG_TO_CATEGORIES` has exactly one element. |
| Constants.CategoryTablesAgree | src/constants.js:2-22 | The icon table has exactly the category names as keys. The theme table has those keys plus `default`. Every theme list has 4 entries. The category names are distinct. |
| DataCheck.CollectValidTags | verify_data.js:8-11 | The set filled by the nested loop is the union of all category tag lists. |
| DataCheck.CheckProject | verify_data.js:16-36 | One project's messages are, in order: the tag-shape error or one error per invalid tag, then one error per falsy required field. The flag afterwards is the old flag, or'ed with whether any message was emitted. |
| DataCheck.CheckTags | verify_data.js:17-27 | The tag check reports the shape error alone when `tags` is falsy or not an array. Otherwise it reports one invalid-tag error per failing element, in array order. The flag is raised iff a line was reported. |
| DataCheck.CheckFields | verify_data.js:29-36 | The required-field check reports one missing-field error per falsy required field, in the order `title`, `description`, `url`, `tags`, `image`. The flag is raised iff a line was reported. |
| DataCheck.Truthy | verify_data.js:17-32 | A value is falsy iff it is `undefined`, `null`, `false`, `0` or the empty string. Arrays and objects, even empty ones, are truthy. |
| DataCheck.ValidTagIffListed | verify_data.js:8-22 | `validTags.has(tag)` holds iff the tag is a string that some category lists. A number or other non-string is never valid. |
| DataCheck.VerifyData | verify_data.js:13-45 | All projects are checked, even after an error, and the reports are the concatenation of every project's messages. The exit code is 0 iff every project passes, and 1 iff some project fails. |
| DataCheck.InvalidTagsExactly | verify_data.js:20-26 | An invalid-tag report for `v` is produced iff `v` is in the tag array and is not a valid tag string. |
| DataCheck.FieldIssuesExactly | verify_data.js:29-36 | A missing-field report for `f` is produced iff `f` is a required field whose value is falsy. |
| DataCheck.TagsShapeIssues | verify_data.js:17-36 | The shape error is reported iff `tags` is not an array. The missing-field error for `tags` is reported iff `tags` is falsy, so a missing `tags` gets both. |
| DataCheck.ProjectIssuesEmptyIffOk | verify_data.js:16-36 | A project produces no message iff it passes the independent `ProjectOk` check. |
| DataCheck.ReportsDescribeProjects | verify_data.js:15-37 | Every report carries the index and title of an existing project and one of that project's issues. |
| DataCheck.EveryFailingProjectReported | verify_data.js:15-37 | Project `i` has a report iff it fails the checks. |
| DataCheck.ReportsEmptyIffAllOk | verify_data.js:39-45 | No error line is printed iff every project passes, which is the condition for exit status 0. The opening and success messages are not error lines. |
| DataCheck.ShippedValidTags | verify_data.js:8-11 | The valid tags of the shipped table are the union of its four tag lists. |
| DataCheck.ShippedCatalogPasses | src/projectData.js:1-29 | Every shipped project passes every check, and validation of the shipped catalog reports nothing. |
| Deploy.CollectDeploymentTasks | deploy.py:19-56 | The result is the remote root followed by the remote path of every directory the walk lists, in walk order, plus the (local path, remote path) pair of every file met. |
| Deploy.VisitDirectory | deploy.py:31-54 | One yielded directory keeps its sub-directories minus `.git`. It contributes the remote paths of those sub-directories and the upload pairs of its files. |
| Deploy.RemoteSubdirectories | deploy.py:45-48 | The remote directories appended for a walked directory are the remote paths of its kept sub-directories, in order. |
| Deploy.UploadEntries | deploy.py:50-54 | Each file of a walked directory yields exactly one pair: its local join and its remote path. |
| Deploy.Descend | deploy.py:30 | After pruning, the walk continues with the kept sub-directories, first entry first, before the directories pending earlier. |
| Deploy.CurrentRemoteIsRemotePath | deploy.py:36-43 | `current_remote` is the remote root for the walk root. For any deeper directory it is the slashed join of the root and the relative path. |
| Deploy.ChildRemotePath | deploy.py:47 | Joining a name onto a directory's remote path and replacing the separator gives the child's remote path. |
| Deploy.JoinKeepsBoth | deploy.py:43-53 | `os.path.join` of a relative name keeps the first part as a prefix and the name as a suffix. It inserts exactly one separator between them when the first part is non-empty and does not end in one. Otherwise it inserts nothing, and the result is exactly the two parts side by side. |
| Deploy.SlashedReplacesEverySep | deploy.py:43-53 | `replace(os.sep, '/')` leaves a path unchanged iff it contains no local separator or the separator is `/`. Otherwise no local separator remains. |
| Deploy.RelPathIsDotOnlyAtRoot | deploy.py:37-39 | The relative path of a walked directory is `.` iff it is the walk root. |
| Deploy.ChildLocalPath | deploy.py:52 | Joining a file name onto the walked directory's path gives that file's local path. |
| Deploy.LocalPathUnderRoot | deploy.py:30-52 | Every local path starts with the local root and ends with its own last name. |
| Deploy.PrunedIsWithoutGit | deploy.py:31-33 | With distinct names, pruning leaves exactly the entries not called `.git`, in listing order. |
| Deploy.RemoveFirstDropsFirstMatch | deploy.py:32-33 | When some entry has the name, `list.remove` drops the first such entry and keeps every other entry in order. This is the only case the code reaches, because it tests `'.git' in dirs` first. With no matching entry Python raises `ValueError`; the model instead returns the listing unchanged, and the code never reaches that case. |
| Deploy.DirPathsSkipGit | deploy.py:31-33 | No listed directory is `.git` or lies beneath one. |
| Deploy.FilePathsSkipGit | deploy.py:31-33 | No uploaded file lies in or beneath a `.git` directory. |
| Deploy.DirPathsParentsFirst | deploy.py:30-48 | Every listed directory's parent is the walk root or was listed earlier. |
| Deploy.RemoteParentsCreatedFirst | deploy.py:27-48 | In `dirs_to_create`, the parent of every created directory appears at an earlier position. The remote root comes first. |
| Deploy.FilesInListedDirs | deploy.py:45-54 | Every uploaded file's directory is the walk root or a listed directory. |
| Deploy.UploadCount | deploy.py:50-54 | The number of upload pairs equals the number of files in directories the walk enters. Pruned and unentered subtrees are excluded. |
| Deploy.WalkVisitsOnce | deploy.py:30-54 | In a well-formed tree, no directory is listed twice and no file is met twice. |
| Deploy.RemotePathShape | deploy.py:39-43 | The walk root maps to the remote root exactly. Every other remote path starts with the slashed remote root, and contains no local separator when that separator is not `/`. |
| Deploy.RemoteChild | deploy.py:43-53 | Below the walk root, a child's remote path is its directory's remote path, `/`, and the name. |
| HtmlCharset.LinkIsMarked | vite.config.js:14 | `<` starts the link text and appears nowhere else in the link text or in the attribute, so the link text cannot overlap itself. |
| HtmlCharset.TransformIndexHtml | vite.config.js:10-17 | A page without the link text is returned unchanged. The output is 16 characters longer per occurrence. It holds as many occurrences as the input. Removing the inserted attribute gives back the input. |
| HtmlCharset.ReplaceUnchanged | vite.config.js:13-16 | A global replacement of a text that does not occur changes nothing. |
| HtmlCharset.OccurrencesAfterMatch | vite.config.js:14 | Occurrences of a self-disjoint text never overlap, so counting all positions counts the non-overlapping matches. |
| HtmlCharset.ReplaceLength | vite.config.js:14 | A global replacement changes the length by the length difference once per match. |
| HtmlCharset.ReplaceKeepsOccurrences | vite.config.js:14 | Replacing a marked text by an extension of it neither adds nor removes a match. |
| HtmlCharset.ReplaceRoundTrip | vite.config.js:14 | Replacing back undoes a global replacement by an extension of the marked text. |
| HtmlCharset.ReplaceSplits | vite.config.js:14 | A global replacement of a text that continues with a match is the replacement of the two parts. |
| HtmlCharset.EveryOccurrenceGetsCharset | vite.config.js:13-16 | Every occurrence at input position `i` appears in the output, followed by ` charset="utf-8"`, at `i` plus 16 for each earlier occurrence. The replacement is global. |

## Left out

- The upload phase of `deploy.py` is not modelled: `upload_single_file`, `upload_directory` and `main`. It is SFTP/SSH network I/O with a thread pool and hard-coded connection settings.
- `print` and console output in `deploy.py`, and the text of the console messages in `verify_data.js`, are not modelled. The messages become `Report` records that keep the project index, title and issue.
- The browser verification scripts, the search, filter and pagination engine they exercise (its source is not part of this model), `src/Starfield.jsx` (randomness and floating point), and the presentational `src/Card.jsx` and `src/App.jsx` are not modelled.
- JavaScript object key order is not modelled. `TAG_TO_CATEGORIES` is a map, which matters for integer-like keys such as `360`. Tags that collide with names on `Object.prototype`, such as `constructor`, are not modelled either: for those, the `!TAG_TO_CATEGORIES[tag]` test would see an inherited value.
- DataCheck.VerifyData: every entry of `projectData` is assumed to be an object. A `null` or `undefined` entry would make `project.tags` throw a `TypeError`. Node would then exit with status 1 before checking the later projects or printing the final message, and the model has no such outcome.
- Deploy.RemoveFirst: the `ValueError` that `list.remove` raises when no entry matches is not modelled. The function returns the listing unchanged instead, and `collect_deployment_tasks` only calls it after a successful membership test.
- Deploy.JoinKeepsBoth: `os.path.join` with an absolute second part, which discards the first part, is not modelled. The walk only ever joins names, which are never absolute.
- Numbers in project records are unbounded integers. NaN and floating-point values, including their falsiness for `NaN`, are not represented.
- Deploy.CollectDeploymentTasks: assumes a well-formed tree. Every name is non-empty, contains no separator, and is not `.` or `..`; the names in a directory are distinct. A real directory listing guarantees this.
- `os.path.join` is modelled with POSIX rules for a configurable separator. Windows drive letters and the acceptance of `/` as a second separator by `ntpath` are not modelled.
- `os.walk` error handling (an unreadable directory is skipped) and symbolic links to directories (listed but not entered) are both modelled as `Unwalked` nodes. A root that does not exist gives an `Unwalked` root, and the result is then only the remote root.
