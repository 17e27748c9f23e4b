# Sharepoint2Aria, modelled in Dafny

Sharepoint2Aria takes a SharePoint (OneDrive for Business) share link and
submits every file behind it to an aria2 download manager. This project
models and proves the core of that program:

- **Share-link resolution** (`Sharepoint(string)` constructor): the URL
  format check, the 302 redirect, the API base cut at `/_layouts/`, the
  `FedAuth` cookie taken from the `Set-Cookie` headers, and the shared
  object's id and kind (1 = file, 2 = folder).
- **The crawl** (`ListFiles`): the breadth-first walk over the folder tree,
  one folder at a time. Each folder's file list is appended in order.
- **Local file names** (`FileInfo`): the path components and download link,
  Windows-forbidden characters replaced by look-alikes, and names shortened
  to fewer than 240 UTF-8 bytes with an `(omit)` marker.
- **`Main`**:
  - the argument loop;
  - sorting the files by path;
  - the interactive `1,3,5-7` / `all` / `exit` selection;
  - defaulting to every file;
  - dispatching the chosen files in ascending index order.

Modules, one per part of the source:

| module | file | models |
|---|---|---|
| `Wrappers` | wrappers.dfy | `Option` and `Result` |
| `Text` | text.dfy | ordinal versions of the .NET string operations used: `StartsWith`, `IndexOf`, `LastIndexOf`, `Split`, `string.Join`, `Replace`, UTF-8 length, ordinal order |
| `Numbers` | numbers.dfy | `Int32.Parse` and `int.ToString` |
| `LocalPath` | file_info.dfy | FileInfo.cs |
| `Share` | sharepoint.dfy | Sharepoint.cs, with a `Sharepoint` class holding the seven fields |
| `Sorting` | sorting.dfy | `List<T>.Sort` as an in-place sort of an array |
| `Options` | options.dfy | the argument loop of Program.cs |
| `Selection` | selection.dfy | the selection prompt of Program.cs |
| `Program` | program.dfy | the rest of `Main` |

Inputs the program gets from the outside world are parameters:

- `Network` holds the two responses the constructor reads.
- `Remote` holds the four REST endpoints the crawl reads, as maps from
  object id to record. A missing key is a failed request.
- The lines typed at the prompt are a sequence. Running out of lines is
  end of input.
- Every exception is an error value (`Result`/`Option` or an `Outcome`
  constructor).

Behaviours of the code that the model keeps:

- The FedAuth token is taken from the *last* `Set-Cookie` value that
  matches the pattern (`FedAuthOfSpec`).
- Shortening a name can fail: the stem-length loop stops at length 1, so a
  name whose stem is empty or whose extension is too long throws
  (`LeadingDotNameFails`, `LongExtensionFails`).
- Empty path components are kept (the plain `Split`), so a path component
  may be empty.
- After a rejected line at the selection prompt, the selection set is
  *not* cleared. The indices added by the valid entries before the bad one
  stay selected, and a later `all` then chooses only those
  (`AllAfterRejectedLine`).

## Model

| member | source | states |
|---|---|---|
| LocalPath.NewFileInfo | FileInfo.cs:8-21 | fails exactly when the server-relative path lacks a leading `/` (first) or the API URL contains neither `/personal/` nor `/sites/`; on success `"/" + Join(pathComponents, "/")` is the server-relative path again, no component contains `/`, there is at least one component, the uid is kept and the download link is `api + "/web/GetFileById('" + uid + "')/$value"` |
| LocalPath.Sanitize | FileInfo.cs:49-58 | same length; each character is replaced by its look-alike; the result has none of the nine forbidden characters; a name without any is returned unchanged |
| LocalPath.StemAndSuffixSpec | FileInfo.cs:26-34 | stem + suffix is the name; the suffix is empty exactly when the extension is not kept or there is no dot; otherwise it starts at the last dot |
| LocalPath.FirstFitSpec | FileInfo.cs:36-41 | the countdown fails exactly when no stem length from k down to 1 fits; otherwise it yields the candidate with the longest stem prefix that fits |
| LocalPath.TruncatedSpec | FileInfo.cs:23-42 | a name under 240 bytes is kept; any result fits; a long name fails exactly when no `stem[..k] + "(omit)" + suffix` with 1 ≤ k ≤ \|stem\| fits, and otherwise becomes the one with the largest fitting k |
| LocalPath.LeadingDotNameFails | FileInfo.cs:28-41 | a long name whose only dot is its first character cannot be shortened when its extension is kept |
| LocalPath.LongExtensionFails | FileInfo.cs:29-41 | a long name whose extension leaves no room for the marker and one character cannot be shortened |
| LocalPath.TruncateIfTooLong | FileInfo.cs:23-42 | the method returns what `Truncated` specifies, `None` where the C# throws |
| LocalPath.ShortenStem | FileInfo.cs:36-41 | the stem-length loop with its early return computes the countdown `FirstFit` |
| LocalPath.FirstFitNoForbidden | FileInfo.cs:37 | shortening a safe stem and suffix never brings in a forbidden character |
| LocalPath.SafeNameSpec | FileInfo.cs:49-59 | a name made safe fits the byte budget and has no forbidden character; a name that already has both properties is kept |
| LocalPath.SafeComponentSpec | FileInfo.cs:59 | each safe component fits and has no forbidden character; only the last component keeps its extension; a safe component is unchanged |
| LocalPath.GetSafePath | FileInfo.cs:46-62 | succeeds exactly when every component can be made safe, then gives one safe component per path component, in order; otherwise fails with the first component that cannot be shortened |
| LocalPath.SubstitutedIsSafe | FileInfo.cs:49-58 | replacing every character by its look-alike leaves no forbidden character and changes nothing in a name that had none |
| LocalPath.NoForbiddenConcat | FileInfo.cs:37 | a concatenation has no forbidden character exactly when neither part has one |
| Text.Utf8CharLength | FileInfo.cs:24 | every character takes 1 to 4 bytes in UTF-8 |
| Text.Utf8LengthAppend | FileInfo.cs:38 | the UTF-8 length of a concatenation is the sum of the lengths |
| Text.Utf8LengthAtLeastLength | FileInfo.cs:24 | a string takes at least as many bytes as it has characters |
| Text.IndexOf | FileInfo.cs:12-13 | -1 exactly when the pattern does not occur; otherwise the position of its first occurrence |
| Text.IndexFrom | Sharepoint.cs:73 | the first occurrence at or after a position, or -1 when there is none |
| Text.OccursInPrefix | Sharepoint.cs:73-75 | an occurrence inside a prefix is an occurrence in the whole string |
| Text.LastIndexOf | FileInfo.cs:29 | -1 exactly when the character is absent; otherwise a position holding it with no later occurrence |
| Text.Split | FileInfo.cs:18 | at least one piece, and no piece contains the separator |
| Text.JoinSplit | FileInfo.cs:18 | joining the pieces of a split with the separator gives back the string |
| Text.SplitJoin | Program.cs:73-75 | splitting a join of separator-free pieces gives back the pieces |
| Text.JoinFirstChar | FileInfo.cs:18 | a join whose first piece is non-empty starts with that piece's first character, followed by the join with the character dropped |
| Text.SplitAtSeparator | Program.cs:74-77 | a string containing the separator splits into at least two pieces, so `x[1]` exists |
| Text.Replace | FileInfo.cs:50-58 | same length; the replaced character no longer occurs (when it differs from its replacement); a string without it comes back unchanged |
| Text.ReplaceChars | FileInfo.cs:50-58 | the only character a replacement brings in is the replacement one, and every other character present stays present |
| Text.LeTotal | Program.cs:47-51 | any two paths are ordered one way or the other |
| Text.LeTransitive | Program.cs:47-51 | the path order chains |
| Text.LeAntisymmetric | Program.cs:47-51 | paths ordered both ways are equal |
| Numbers.ParseInt32 | Program.cs:76-77 | a parsed value is always a 32-bit integer |
| Numbers.ParseInt32Shape | Program.cs:76-87 | only an optional sign followed by at least one digit, with white space around it, is accepted: an empty or blank entry, a lone sign, a space between digits or any other character throws |
| Numbers.Digits | Program.cs:56 | the decimal spelling is non-empty and all digits |
| Numbers.DigitsValueOfDigits | Program.cs:56 | the value of the decimal spelling of n is n |
| Numbers.ParseDecimal | Program.cs:76-77 | parsing the decimal form of an integer gives it back when it is a 32-bit integer, and throws (overflow) otherwise |
| Numbers.Untrimmed | Program.cs:87 | a string without leading or trailing white space is not trimmed |
| Numbers.ParseIgnoresWhite | Program.cs:87 | white space around an entry does not change what it parses to |
| Numbers.TrimStartWhite | Program.cs:87 | leading white space is skipped up to the first other character |
| Numbers.TrimEndWhite | Program.cs:87 | trailing white space is skipped back to the last other character |
| Share.TenantRun | Sharepoint.cs:45 | the maximal run of `[a-z-]` characters at a position |
| Share.IsShareLinkSpec | Sharepoint.cs:45-49 | the hand-written check accepts exactly the URLs matching `^https://[a-z-]+\.sharepoint\.com/:(i\|f):/g/personal/.*$` |
| Share.ApiBaseSpec | Sharepoint.cs:72-75 | no API base exactly when the real URL has no `/_layouts/`; otherwise the API base is the URL cut at its first `/_layouts/` plus `/_api`, and contains no `/_layouts/` itself |
| Share.ApiOccurrenceIsEarlier | Sharepoint.cs:73-75 | a `/_layouts/` in the API base would be one of the real URL's, earlier than the first |
| Share.TokenRun | Sharepoint.cs:79 | the maximal run of `[0-9a-zA-Z/+]` characters at a position |
| Share.FedAuthFrom | Sharepoint.cs:79-86 | a captured token is non-empty and made of token characters |
| Share.FirstFedAuth | Sharepoint.cs:83-86 | a captured token is non-empty and made of token characters |
| Share.FedAuthFromSpec | Sharepoint.cs:83-86 | the search finds nothing exactly when there is no match at or after the position, and otherwise captures the group of the leftmost match |
| Share.FirstFedAuthSpec | Sharepoint.cs:83-86 | `Matches(val)[0].Groups[1]` is the group of the leftmost match, and is missing exactly when the value has none |
| Share.CookieValuesStep | Sharepoint.cs:80-82 | one more header adds its values only when it is a `Set-Cookie` header |
| Share.FedAuthOfSnoc | Sharepoint.cs:82-87 | a later matching value overwrites the token; a non-matching one leaves it |
| Share.LastMatchExtends | Sharepoint.cs:82-87 | a non-matching value after the last match keeps it the last |
| Share.FedAuthOfSpec | Sharepoint.cs:78-91 | the token is empty exactly when no `Set-Cookie` value matches; otherwise it is the group of the last matching value; it is always made of token characters |
| Share.ResolutionSpec | Sharepoint.cs:42-114 | a malformed link is rejected before any request, whatever the network returns; a status other than 302 is an error; a successful session has the matching link, the redirect target and its `id`, the API base as cut at the first `/_layouts/`, a non-empty FedAuth taken from the last matching cookie, the shared object's id, and "is a file" exactly when the type is 1 and "is a folder" exactly when it is 2 |
| Share.Somes | Sharepoint.cs:148-151 | every enqueued id is one the listing returned |
| Share.QueueWeightAppend | Sharepoint.cs:133-152 | the work left in a queue is the sum over its parts |
| Share.WeightBelowIsQueueWeight | Sharepoint.cs:145-152 | the work below a folder is the work of its subfolder queue |
| Share.CrawlStep | Sharepoint.cs:133-152 | dequeuing a folder and enqueuing its subfolders strictly shrinks the remaining work, on a hierarchy without cycles |
| Share.CrawlUnfold | Sharepoint.cs:133-165 | one loop iteration: a failing folder aborts the crawl; otherwise its files come first, then the crawl of the rest of the queue with its subfolders at the tail |
| Share.OrderUnfold | Sharepoint.cs:133-152 | the dequeue order is the head, then the order of the rest with its subfolders appended |
| Share.PrependPrepend | Sharepoint.cs:162 | appending two file lists in turn is appending their concatenation |
| Share.ListedFiles | Sharepoint.cs:157-163 | on success, one FileInfo per listed entry, in listing order, each built by the FileInfo constructor |
| Share.ListedFilesPrefixFails | Sharepoint.cs:157-163 | a bad entry aborts the whole folder listing |
| Share.Expand | Sharepoint.cs:136-164 | a folder missing from the folder endpoint fails with that request's error; an expanded folder was found by all three requests, its subfolder listing has no entry without `UniqueId`, its children are the listed subfolder ids position by position, and its files are one FileInfo per listed file entry, in order |
| Share.SomesAllPresent | Sharepoint.cs:148-151 | when every subfolder entry has an id, the enqueued ids are exactly those ids, in order, one per entry |
| Share.OrderIsBreadthFirst | Sharepoint.cs:129-152 | first in, first out: the dequeued folders are the seed queue followed by the subfolders of each dequeued folder, taken in dequeue order and, within a folder, in listing order |
| Share.ChildrenOfCons | Sharepoint.cs:145-152 | the subfolders of a queue are those of its head followed by those of the rest |
| Share.AllExpandCons | Sharepoint.cs:133-165 | every folder of a queue expands exactly when its head and every folder of the rest expand |
| Share.CrawlSucceedsIff | Sharepoint.cs:133-165 | the crawl succeeds exactly when every folder it dequeues (metadata, subfolders, files) can be read |
| Share.CrawlValue | Sharepoint.cs:154-166 | a successful crawl returns the concatenation of the dequeued folders' file lists in dequeue order, nothing removed, so its length is the sum of the listed file counts |
| Share.ListingSpec | Sharepoint.cs:116-166 | a shared file yields exactly one FileInfo built from its own server-relative URL and id; a shared folder yields the breadth-first crawl from it |
| Share.Sharepoint.Connect | Sharepoint.cs:42-114 | the constructor succeeds exactly when the resolution does, fails with the resolution's error, and on success leaves the seven fields equal to the resolved session |
| Share.Sharepoint.ScanCookies | Sharepoint.cs:78-88 | the nested header loop leaves the token of the last matching `Set-Cookie` value, "" when none matches |
| Share.Sharepoint.ListFiles | Sharepoint.cs:116-167 | returns exactly the listing the session specifies: the single file, or the breadth-first crawl, stopping at the first failed request or bad entry |
| Share.Sharepoint.VisitFolder | Sharepoint.cs:134-164 | one iteration of the `while (q.Count > 0)` loop: fails exactly when the folder cannot be expanded; otherwise dequeues it, enqueues its subfolders and appends its files |
| Share.Sharepoint.EnqueueSubfolders | Sharepoint.cs:145-152 | fails exactly when an entry lacks `UniqueId`; otherwise the subfolder ids go to the tail of the queue in listing order |
| Share.Sharepoint.AppendFiles | Sharepoint.cs:154-164 | the files of one folder are appended, or its first bad entry aborts |
| Sorting.SortBy | Program.cs:47-51 | with a total preorder, the array ends up ordered and is a permutation of its old contents |
| Sorting.Insert | Program.cs:47-51 | one insertion step: the prefix grows ordered by one, the rest of the array is untouched, the contents are permuted |
| Sorting.Swap | Program.cs:105 | exchanges two elements and nothing else |
| Program.PathLeIsTotalPreorder | Program.cs:47-51 | comparing the `/`-joined path components is a total preorder, so `Sort` can order the files by it |
| Program.SortFiles | Program.cs:47-51 | the files end up ordered by their joined path, a permutation of the listing |
| Program.ToFetchSpec | Program.cs:98-103 | an empty selection stands for every index 0..Count-1, any other for itself, and a prompt's choice never names an index outside the listing |
| Program.DefaultToAll | Program.cs:98-103 | an empty set becomes every index; any other is kept |
| Program.SortedIndices | Program.cs:104-105 | the selected indices, each exactly once, in strictly increasing order |
| Program.ToArray | Program.cs:104 | the list built from the set holds each of its elements once |
| Program.TwoCopies | Program.cs:104-105 | a list built from a set holds no value twice |
| Program.TaskOf | Program.cs:107-110 | a file can be dispatched exactly when every path component can be made safe; its request carries the download link, the session's FedAuth and, as the output name, the last safe component (no forbidden character, under 240 bytes) |
| Program.Dispatch | Program.cs:108-110 | one loop body: the request `TaskOf` specifies, or why `GetSafePath` threw |
| Program.AddTasks | Program.cs:107-116 | one request per index, in the given order, each for the file at that index; stops at the first file whose path cannot be made safe |
| Program.ChooseOrder | Program.cs:59-105 | the selection is the prompt's (or empty without `--select-files`), and the indices dispatched are those it leaves, ascending and within the listing |
| Program.Download | Program.cs:47-116 | the listing is sorted by path; `exit` or end of input ends the run and a parse exception aborts it; otherwise the chosen indices of the sorted listing are dispatched in ascending order |
| Program.Run | Program.cs:5-117 | a missing option value throws in the argument loop; help or no link prints usage and does nothing else; a failing constructor or listing ends the run with its error; every request carries the session's FedAuth |
| Options.ParseArgs | Program.cs:6-28 | the index loop over the arguments computes the declarative reading `Parse` |
| Options.FoldFlags | Program.cs:15-18 | help is set exactly when `--help` or `-h` occurs as an argument, select-files exactly when `--select-files` does |
| Options.FoldLastRpcUrlWins | Program.cs:21-22 | the last `--rpc-url` value wins; without one the default `http://[::1]:6800` stays |
| Options.FoldLastRpcSecretWins | Program.cs:19-20 | the last `--rpc-secret` value wins; without one the secret stays empty |
| Options.FoldNoLink | Program.cs:23-30 | without a non-empty positional argument the link stays empty (so usage is printed) and the password untouched |
| Options.FoldLink | Program.cs:23-27 | the first non-empty positional argument becomes the link, and the last positional after it, if any, the password |
| Options.FoldLinkOption | Program.cs:15-22 | an option before the link leaves the link and password alone |
| Options.FoldLinkEmpty | Program.cs:23-24 | an empty positional argument before the link sets the link to "" again, so the next one is still taken as the link |
| Options.FoldLinkHere | Program.cs:23-27 | a non-empty first positional argument is the link, and later positionals set the password |
| Options.FoldAfterLink | Program.cs:23-27 | once the link is set, every positional argument overwrites the password: the last one wins |
| Options.TokensFailOnlyAtEnd | Program.cs:19-22 | the loop throws only when `--rpc-secret` or `--rpc-url` is the last argument, and reports that option |
| Selection.ParseEntry | Program.cs:74-94 | an accepted entry names the indices lo..hi with 0 ≤ lo ≤ hi ≤ max_index |
| Selection.SingleEntry | Program.cs:86-94 | a printed index n is accepted exactly when n ≤ max_index, and then selects just n |
| Selection.RangeEntry | Program.cs:74-85 | a range `b-e` of printed indices is accepted exactly when b ≤ e ≤ max_index, and then selects exactly b..e |
| Selection.NegativeEntry | Program.cs:74-77 | a negative number never reaches the range check: its `-` makes it a range whose empty beginning throws |
| Selection.ScanLineAccepted | Program.cs:72-95 | a line is accepted exactly when every entry is valid, and then adds exactly the union of the entries' indices |
| Selection.ScanLineStops | Program.cs:72-95 | the first invalid entry ends the line: a bad number throws, an index out of range rejects the line, and the indices added by the entries before it stay in the set |
| Selection.ScanLineBounds | Program.cs:78-93 | a line only ever adds indices within 0..max_index |
| Selection.PromptBounds | Program.cs:61-97 | the loop only ever chooses indices within 0..max_index, on top of the set it starts from |
| Selection.AllAfterRejectedLine | Program.cs:61-103 | after "b,n" with n out of range, answering `all` chooses {b} instead of the empty set that stands for every file |
| Selection.ReadSelection | Program.cs:61-97 | the `while (!ok)` loop with its `exit`, empty-line, `all`, reject-and-reprompt and throw cases computes the declarative reading `Prompt` |
| Selection.AddLine | Program.cs:73-95 | the `foreach` over one line's entries computes `ScanLine`, stopping at the first invalid entry |
| Selection.AddRange | Program.cs:83-85 | the `for j` loop adds exactly the indices begin..end |

## Left out

- HTTP transport: the requests, the 5-second time-outs and the status and
  JSON checks of `HttpGet` are not modelled. Their outcomes are the
  `Network` and `Remote` records, and a failed request is a missing key or
  `None`.
- JSON parsing: `GetProperty` and `GetString` with a missing or null
  property become `None` fields.
- `HttpUtility.ParseQueryString`: the `id` query parameter is given as
  `locationId`. `UrlEncode` and the exact `GetSharingLinkData` request URL
  are library calls and are not modelled.
- `Uri.ToString()`: the redirect target is used as given. .NET's Uri
  normalisation is not modelled.
- The regular expressions are predicates written by hand.
  `IsShareLinkSpec` proves the share-link one equal to its pattern.
- `Console` output is not modelled: the info lines, the file listing with
  its indices, and the FAIL/OK lines.
- The two-argument constructor `new Sharepoint(od_url, od_pwd)` that
  Program.cs:41 calls: Sharepoint.cs declares only the one-argument
  constructor (Sharepoint.cs:42-114), so a password-protected link is not
  part of this model. `Run` performs the one-argument resolution, and the
  parsed password is not used further.
- The aria2 JSON-RPC client (AriaRpcClient.cs) is not modelled, and the
  model assumes its calls return. A dispatched file is the `Task` value
  naming the URL, the output name and the FedAuth header. In the source
  these calls can throw and end the run:
  - `Ping` (Program.cs:39) throws when aria2 is unreachable
    (AriaRpcClient.cs:98), before the link is resolved.
  - `AddUri` throws on an RPC time-out (AriaRpcClient.cs:23-24), on a
    reply that is not JSON (AriaRpcClient.cs:32) and on a reply without
    `result` (AriaRpcClient.cs:80). Such a throw stops the dispatch loop
    of Program.cs:107-116, so later indices are never sent.
  - An empty GID only changes the printed FAIL/OK, not what is sent.
- The commented-out FedAuth validity decoding is dead code and is not
  modelled.
- `string.CompareTo` is replaced by ordinal comparison (`Text.Le`). The
  culture-sensitive order .NET uses is not modelled.
- Text.StartsWith and Text.IndexOf: they search ordinally, while .NET's
  `StartsWith(string)` (FileInfo.cs:9) and `IndexOf(string)` (FileInfo.cs:12-13,
  Sharepoint.cs:73) compare by the current culture and skip ignorable
  characters such as U+00AD. So a path starting `"\u00AD/"` or a URL
  containing `/_lay\u00ADouts/` is accepted by the source and rejected by the
  model. Culture-sensitive matching is not modelled.
- Strings are sequences of Unicode scalar values. `Substring` splitting a
  UTF-16 surrogate pair is not modelled.
- `Int32.Parse` is modelled with ASCII digits, the invariant culture's `+`
  and `-`, and the white space U+0009 to U+000D and U+0020. Trailing NUL
  characters and other cultures' signs are not modelled.
- `List<T>.Sort` is modelled by an insertion sort with the library's
  contract: ordered by the comparison, and a permutation. Files with equal
  paths may end up in either order, in the library as here.
- `new List<int>(HashSet<int>)`: the model enumerates the set in ascending
  order. The sort that follows makes the order irrelevant.
- Share.Sharepoint.ListFiles: requires a rank on the folders that
  decreases from parent to subfolder, which rules out cycles anywhere in
  the folder maps. The source has no cycle guard: on a folder that contains
  itself it never ends unless a request fails. That case is not
  modelled.
- Share.Sharepoint.Connect: on an error the fields are left unspecified,
  where the C# object is never constructed.
- Program.Run: its own contract covers the early outcomes and the FedAuth
  header. Which files are dispatched, and in which order, is stated by
  `Program.Download`, whose sorted listing is a ghost result, because
  stating it at `Run` adds nothing.
