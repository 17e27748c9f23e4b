/** `Program.Main` after its argument loop: connect, list, sort the files by
    path, let the user choose some, and hand each chosen file to the
    download manager in ascending index order. The download manager is
    represented by the requests it would receive. */
module Program {
  import opened Wrappers
  import opened Text
  import opened LocalPath
  import opened Sorting
  import opened Options
  import opened Selection
  import opened Share

  // ---------------------------------------------------------------------
  // Sorting the listing
  // ---------------------------------------------------------------------

  /** The key `Main` sorts and lists the files by. */
  function PathOf(f: FileInfo): string
  {
    Join(f.pathComponents, '/')
  }

  predicate PathLe(a: FileInfo, b: FileInfo)
  {
    Le(PathOf(a), PathOf(b))
  }

  lemma PathLeIsTotalPreorder()
    ensures TotalPreorder(PathLe)
  {
    forall a, b ensures PathLe(a, b) || PathLe(b, a) {
      LeTotal(PathOf(a), PathOf(b));
    }
    forall a, b, c | PathLe(a, b) && PathLe(b, c) ensures PathLe(a, c) {
      LeTransitive(PathOf(a), PathOf(b), PathOf(c));
    }
  }

  /** Sorts the listing in place by the `/`-joined path of each file. */
  method SortFiles(files: array<FileInfo>)
    modifies files
    ensures SortedBy(files[..], PathLe)
    ensures multiset(files[..]) == multiset(old(files[..]))
  {
    PathLeIsTotalPreorder();
    SortBy(files, PathLe);
  }

  // ---------------------------------------------------------------------
  // The indices to download
  // ---------------------------------------------------------------------

  /** What the selection leaves: every index when the set is empty. */
  function ToFetch(selected: set<int>, count: int): set<int>
  {
    if selected == {} then Range(0, count - 1) else selected
  }

  /** An empty selection stands for every file, any other one for itself;
      and a selection made at the prompt never names a file that does not
      exist. */
  lemma ToFetchSpec(lines: seq<string>, selectFiles: bool, count: int)
    ensures var s := if selectFiles then Prompt(lines, count - 1, {}) else Chosen({});
            s.Chosen? ==> ToFetch(s.indices, count) <= Range(0, count - 1)
    ensures forall i :: i in ToFetch({}, count) <==> 0 <= i < count
    ensures forall s :: s != {} ==> ToFetch(s, count) == s
  {
    PromptBounds(lines, count - 1, {});
  }

  /** An empty selection is filled with every index of the listing. */
  method DefaultToAll(selected: set<int>, count: int) returns (s: set<int>)
    ensures s == ToFetch(selected, count)
  {
    s := selected;
    if |s| == 0 {
      if count > 0 {
        s := AddRange(s, 0, count - 1);
      } else {
        assert Range(0, count - 1) == {};
      }
    }
  }

  predicate Increasing(s: seq<int>)
  {
    forall i, j :: 0 <= i < j < |s| ==> s[i] < s[j]
  }

  /** `new List<int>(selected_index_set)` and `Sort()`: the indices of the
      set, each once, in ascending order. */
  method SortedIndices(s: set<int>, count: int) returns (r: seq<int>)
    requires 0 <= count && forall x :: x in s ==> 0 <= x < count
    ensures Increasing(r)
    ensures forall x :: x in r <==> x in s
    ensures |r| == |s|
  {
    var a := ToArray(s, count);
    SortBy(a, (x: int, y: int) => x <= y);
    r := a[..];
    forall i, j | 0 <= i < j < |r|
      ensures r[i] < r[j]
    {
      TwoCopies(r, i, j, s);
    }
    assert forall x :: x in r <==> x in multiset(r);
  }

  /** `new List<int>(selected_index_set)`: the set's elements in some
      order; here the ascending one, which a `HashSet<int>` of small
      indices may well yield. */
  method ToArray(s: set<int>, count: int) returns (a: array<int>)
    requires 0 <= count && forall x :: x in s ==> 0 <= x < count
    ensures fresh(a)
    ensures multiset(a[..]) == multiset(s)
  {
    var r: seq<int> := [];
    for i := 0 to count
      invariant forall x :: multiset(r)[x] == if x in s && x < i then 1 else 0
    {
      if i in s {
        r := r + [i];
      }
    }
    assert forall x :: multiset(r)[x] == multiset(s)[x];
    a := new int[|r|](i requires 0 <= i < |r| => r[i]);
    assert a[..] == r;
  }

  /** A sequence with the multiset of a set holds no value twice. */
  lemma TwoCopies(r: seq<int>, i: int, j: int, s: set<int>)
    requires 0 <= i < j < |r| && multiset(r) == multiset(s)
    ensures r[i] != r[j]
  {
    var x := r[i];
    assert r == r[..j] + r[j..];
    assert x in r[..j];
    assert multiset(r)[x] == multiset(r[..j])[x] + multiset(r[j..])[x];
    assert multiset(s)[x] <= 1;
    assert r[j] in multiset(r[j..]);
  }

  // ---------------------------------------------------------------------
  // Dispatching
  // ---------------------------------------------------------------------

  /** The `AddUri` call for one file: its download link, the last safe path
      component as the output name (no directory), and the session cookie
      as a header. */
  datatype Task = Task(uri: string, outName: string, fedAuth: string)

  /** `GetSafePath()` throws, or is empty so that indexing its last
      element throws. */
  datatype TaskError = Unsafe(cause: PathError) | NoName

  predicate AllSafe(pc: seq<string>)
  {
    forall i :: 0 <= i < |pc| ==> SafeComponent(pc, i).Some?
  }

  /** The request for one file; `None` when `GetSafePath()` throws or
      yields nothing. */
  function TaskOf(f: FileInfo, fedAuth: string): (r: Option<Task>)
    ensures r.Some? <==> AllSafe(f.pathComponents) && |f.pathComponents| >= 1
    ensures r.Some? ==> r.value.uri == f.downloadLink && r.value.fedAuth == fedAuth
    ensures r.Some? ==> Fits(r.value.outName) && NoForbidden(r.value.outName)
    ensures r.Some? ==> Some(r.value.outName) == SafeComponent(f.pathComponents, |f.pathComponents| - 1)
  {
    var pc := f.pathComponents;
    if AllSafe(pc) && |pc| >= 1 then
      SafeComponentSpec(pc, |pc| - 1);
      Some(Task(f.downloadLink, SafeComponent(pc, |pc| - 1).value, fedAuth))
    else None
  }

  /** Why no request can be made for `f`. */
  ghost predicate Explains(f: FileInfo, e: TaskError)
  {
    match e
    case NoName => AllSafe(f.pathComponents) && f.pathComponents == []
    case Unsafe(cause) =>
      exists i :: FirstUnsafeAt(f.pathComponents, i) && cause == CannotTruncate(Sanitize(f.pathComponents[i]))
  }

  /** The body of the dispatch loop for one file. */
  method Dispatch(f: FileInfo, fedAuth: string) returns (r: Result<Task, TaskError>)
    ensures r.Ok? <==> TaskOf(f, fedAuth).Some?
    ensures r.Ok? ==> TaskOf(f, fedAuth) == Some(r.value)
    ensures r.Err? ==> Explains(f, r.error)
  {
    var safePath := GetSafePath(f);
    if safePath.Err? {
      return Err(Unsafe(safePath.error));
    }
    if |safePath.value| == 0 {
      return Err(NoName);
    }
    var pc := f.pathComponents;
    assert Some(safePath.value[|pc| - 1]) == SafeComponent(pc, |pc| - 1);
    return Ok(Task(f.downloadLink, safePath.value[|safePath.value| - 1], fedAuth));
  }

  /** The dispatch loop over the sorted indices: one request per index
      in the given order, until a file's path cannot be made safe. */
  method AddTasks(files: seq<FileInfo>, indices: seq<int>, fedAuth: string)
    returns (tasks: seq<Task>, err: Option<TaskError>)
    requires forall k :: 0 <= k < |indices| ==> 0 <= indices[k] < |files|
    ensures |tasks| <= |indices|
    ensures forall k :: 0 <= k < |tasks| ==> TaskOf(files[indices[k]], fedAuth) == Some(tasks[k])
    ensures err.None? <==> |tasks| == |indices|
    ensures err.Some? ==> TaskOf(files[indices[|tasks|]], fedAuth).None? && Explains(files[indices[|tasks|]], err.value)
  {
    tasks := [];
    for k := 0 to |indices|
      invariant |tasks| == k
      invariant forall m :: 0 <= m < k ==> TaskOf(files[indices[m]], fedAuth) == Some(tasks[m])
    {
      var r := Dispatch(files[indices[k]], fedAuth);
      if r.Err? {
        return tasks, Some(r.error);
      }
      tasks := tasks + [r.value];
    }
    return tasks, None;
  }

  // ---------------------------------------------------------------------
  // The whole run
  // ---------------------------------------------------------------------

  /** How `Main` ends. An exception from the argument loop, the
      `Sharepoint` constructor, `ListFiles`, `Int32.Parse` or the dispatch
      loop ends it; `exit` or the end of input returns early. */
  datatype Outcome =
    | ArgsThrew(argsError: ArgsError)
    | Usage
    | ConnectThrew(connectError: ShareError)
    | ListThrew(listError: ShareError)
    | Exited
    | SelectionThrew
    | Dispatched(tasks: seq<Task>)
    | DispatchThrew(done: seq<Task>, taskError: TaskError)

  /** The selection `Main` works with: the prompt's, or the empty set when
      `--select-files` is not given. */
  function Selected(selectFiles: bool, lines: seq<string>, count: int): Selection
  {
    if selectFiles then Prompt(lines, count - 1, {}) else Chosen({})
  }

  /** Everything after `ListFiles`: sort the listing, choose indices into
      it, and dispatch the chosen files in ascending index order. The
      sorted listing and the index order are returned as ghost values. */
  method Download(listed: seq<FileInfo>, selectFiles: bool, lines: seq<string>, fedAuth: string)
    returns (o: Outcome, ghost sorted: seq<FileInfo>, ghost order: seq<int>)
    ensures SortedBy(sorted, PathLe) && multiset(sorted) == multiset(listed) && |sorted| == |listed|
    ensures var sel := Selected(selectFiles, lines, |listed|);
            && (sel == Exit <==> o == Exited)
            && (sel == Crash <==> o == SelectionThrew)
            && (sel.Chosen? <==> o.Dispatched? || o.DispatchThrew?)
            && (sel.Chosen? ==>
                  && Increasing(order)
                  && (forall x :: x in order <==> x in ToFetch(sel.indices, |listed|))
                  && (forall k :: 0 <= k < |order| ==> 0 <= order[k] < |sorted|))
    ensures o.Dispatched? ==>
              && |o.tasks| == |order|
              && forall k :: 0 <= k < |order| ==> 0 <= order[k] < |sorted| && TaskOf(sorted[order[k]], fedAuth) == Some(o.tasks[k])
    ensures o.DispatchThrew? ==>
              && |o.done| < |order|
              && (forall k :: 0 <= k < |order| ==> 0 <= order[k] < |sorted|)
              && (forall k :: 0 <= k < |o.done| ==> TaskOf(sorted[order[k]], fedAuth) == Some(o.done[k]))
              && TaskOf(sorted[order[|o.done|]], fedAuth).None?
              && Explains(sorted[order[|o.done|]], o.taskError)
  {
    var files := new FileInfo[|listed|](i requires 0 <= i < |listed| => listed[i]);
    assert files[..] == listed;
    SortFiles(files);
    sorted := files[..];
    var sel, indices := ChooseOrder(files.Length, selectFiles, lines);
    order := indices;
    if sel.Exit? {
      return Exited, sorted, order;
    } else if sel.Crash? {
      return SelectionThrew, sorted, order;
    }
    var tasks, err := AddTasks(files[..], indices, fedAuth);
    if err.Some? {
      return DispatchThrew(tasks, err.value), sorted, order;
    }
    return Dispatched(tasks), sorted, order;
  }

  /** The selection step of `Main` and the ascending list of indices it
      leaves. */
  method ChooseOrder(count: nat, selectFiles: bool, lines: seq<string>) returns (sel: Selection, order: seq<int>)
    ensures sel == Selected(selectFiles, lines, count)
    ensures sel.Chosen? ==>
              && Increasing(order)
              && (forall x :: x in order <==> x in ToFetch(sel.indices, count))
              && (forall k :: 0 <= k < |order| ==> 0 <= order[k] < count)
  {
    sel := Chosen({});
    if selectFiles {
      sel := ReadSelection(lines, count - 1);
      if !sel.Chosen? {
        return sel, [];
      }
    }
    ToFetchSpec(lines, selectFiles, count);
    var fetch := DefaultToAll(sel.indices, count);
    order := SortedIndices(fetch, count);
    assert forall k :: 0 <= k < |order| ==> order[k] in fetch;
  }

  /** `Main` with its inputs made explicit: the arguments, the responses of
      the share-link requests, the remote tree, and the lines typed at the
      selection prompt. */
  method Run(args: seq<string>, net: Network, remote: Remote, ghost rank: map<Id, nat>, lines: seq<string>)
    returns (o: Outcome)
    requires Ranked(remote, rank)
    ensures Parse(args).Err? <==> o.ArgsThrew?
    ensures Parse(args).Err? ==> o == ArgsThrew(Parse(args).error)
    ensures Parse(args).Ok? ==> (ShowsUsage(Parse(args).value) <==> o == Usage)
    ensures Parse(args).Ok? && !ShowsUsage(Parse(args).value) ==>
              var url := Parse(args).value.shareUrl;
              && (Resolution(url, net).Err? <==> o.ConnectThrew?)
              && (Resolution(url, net).Err? ==> o == ConnectThrew(Resolution(url, net).error))
    ensures Parse(args).Ok? && !ShowsUsage(Parse(args).value) && Resolution(Parse(args).value.shareUrl, net).Ok? ==>
              var session := Resolution(Parse(args).value.shareUrl, net).value;
              && (Listing(remote, rank, session).Err? <==> o.ListThrew?)
              && (Listing(remote, rank, session).Err? ==> o == ListThrew(Listing(remote, rank, session).error))
              && (o.Dispatched? ==> forall k :: 0 <= k < |o.tasks| ==> o.tasks[k].fedAuth == session.fedAuth)
    ensures o.Dispatched? ==> Parse(args).Ok? && !Parse(args).value.printHelp
  {
    var parsed := ParseArgs(args);
    if parsed.Err? {
      return ArgsThrew(parsed.error);
    }
    var c := parsed.value;
    if c.printHelp || c.shareUrl == "" {
      return Usage;
    }
    var sp := new Sharepoint();
    var connectError := sp.Connect(c.shareUrl, net);
    if connectError.Some? {
      return ConnectThrew(connectError.value);
    }
    var listed := sp.ListFiles(remote, rank);
    if listed.Err? {
      return ListThrew(listed.error);
    }
    ghost var sorted, order;
    o, sorted, order := Download(listed.value, c.selectFiles, lines, sp.fedAuth);
    if o.Dispatched? {
      forall k | 0 <= k < |o.tasks|
        ensures o.tasks[k].fedAuth == sp.fedAuth
      {
        assert TaskOf(sorted[order[k]], sp.fedAuth) == Some(o.tasks[k]);
      }
    }
  }
}
