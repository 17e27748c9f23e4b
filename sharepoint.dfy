/** Sharepoint.cs: resolving a share link into a session (API base, FedAuth
    cookie, the shared object's id and kind) and the breadth-first crawl
    that lists every file reachable from the shared folder. HTTP and JSON
    are replaced by records: `Network` holds the two responses the
    resolution reads, `Remote` the four REST endpoints the crawl reads. */
module Share {
  import opened Wrappers
  import opened Text
  import opened LocalPath

  type Id = string

  /** The exceptions thrown by Sharepoint.cs. */
  datatype ShareError =
    | InvalidUrl(url: string)
    | Timeout(url: string)
    | UnexpectedStatus(status: int)
    | NoLocation
    | UnexpectedLocation(location: string)
    | UnexpectedUrl(location: string)
    | NoFedAuth
    | SharingLinkDataFailed
    | BadUid
    | InvalidType(objectType: Option<int>)
    | RequestFailed(url: string)
    | BadFile(uid: Id)
    | BadFolder(uid: Id)
    | BadSubdir(uid: Id)
    | BadSubfile(uid: Id)
    | FileInfoFailed(cause: PathError)

  // =====================================================================
  // The share-link format ^https://[a-z-]+\.sharepoint\.com/:(i|f):/g/personal/.*$
  // =====================================================================

  const HttpsPrefix := "https://"
  const HostSuffix := ".sharepoint.com/:"
  const PersonalPath := ":/g/personal/"

  predicate IsTenantChar(c: char)
  {
    'a' <= c <= 'z' || c == '-'
  }

  /** Length of the run of tenant characters starting at `from`. */
  function TenantRun(s: string, from: nat): (n: nat)
    requires from <= |s|
    ensures from + n <= |s|
    ensures forall i :: from <= i < from + n ==> IsTenantChar(s[i])
    ensures from + n == |s| || !IsTenantChar(s[from + n])
    decreases |s| - from
  {
    if from < |s| && IsTenantChar(s[from]) then 1 + TenantRun(s, from + 1) else 0
  }

  predicate NoLineFeed(s: string)
  {
    forall i :: 0 <= i < |s| ==> s[i] != '\n'
  }

  /** `.*$` without the multi-line option: `.` does not match a line feed,
      and `$` matches at the end or just before one final line feed. */
  predicate RestOfLine(s: string)
  {
    NoLineFeed(s) || (|s| > 0 && s[|s| - 1] == '\n' && NoLineFeed(s[..|s| - 1]))
  }

  /** `url` has the share-link shape with a tenant name of `n` characters. */
  predicate ShareLinkShape(url: string, n: nat)
  {
    var h := |HttpsPrefix| + n;
    && h + |HostSuffix| + 1 + |PersonalPath| <= |url|
    && url[..|HttpsPrefix|] == HttpsPrefix
    && (forall i :: |HttpsPrefix| <= i < h ==> IsTenantChar(url[i]))
    && url[h..h + |HostSuffix|] == HostSuffix
    && (url[h + |HostSuffix|] == 'i' || url[h + |HostSuffix|] == 'f')
    && url[h + |HostSuffix| + 1..h + |HostSuffix| + 1 + |PersonalPath|] == PersonalPath
    && RestOfLine(url[h + |HostSuffix| + 1 + |PersonalPath|..])
  }

  /** The regular expression, read declaratively: some non-empty tenant name
      makes the whole URL fit the pattern. */
  ghost predicate MatchesShareLinkPattern(url: string)
  {
    exists n: nat :: 1 <= n && ShareLinkShape(url, n)
  }

  /** The URL check at the top of the `Sharepoint(string)` constructor. */
  function IsShareLink(url: string): bool
  {
    StartsWith(url, HttpsPrefix) && 1 <= TenantRun(url, |HttpsPrefix|) && ShareLinkShape(url, TenantRun(url, |HttpsPrefix|))
  }

  lemma IsShareLinkSpec(url: string)
    ensures IsShareLink(url) <==> MatchesShareLinkPattern(url)
  {
    if MatchesShareLinkPattern(url) {
      var m: nat :| 1 <= m && ShareLinkShape(url, m);
      var h := |HttpsPrefix| + m;
      assert url[h] == HostSuffix[0];
    }
  }

  // =====================================================================
  // The API base: the real URL cut at its first /_layouts/, plus /_api
  // =====================================================================

  const Layouts := "/_layouts/"

  function ApiBase(realUrl: string): Option<string>
  {
    var pos := IndexOf(realUrl, Layouts);
    if pos < 0 then None else Some(realUrl[..pos] + "/_api")
  }

  /** The part of the real URL before its first `/_layouts/` never contains
      `/_layouts/`, and neither does the API base built from it. */
  lemma ApiBaseSpec(realUrl: string)
    ensures ApiBase(realUrl).None? <==> forall i :: !OccursAt(realUrl, Layouts, i)
    ensures ApiBase(realUrl).Some? ==>
              exists pos :: OccursAt(realUrl, Layouts, pos)
                && ApiBase(realUrl).value == realUrl[..pos] + "/_api"
                && forall i :: !OccursAt(realUrl[..pos], Layouts, i)
    ensures ApiBase(realUrl).Some? ==> forall i :: !OccursAt(ApiBase(realUrl).value, Layouts, i)
  {
    var pos := IndexOf(realUrl, Layouts);
    if pos >= 0 {
      var pre := realUrl[..pos];
      forall i ensures !OccursAt(pre, Layouts, i) {
        OccursInPrefix(realUrl, pos, Layouts, i);
      }
      var api := pre + "/_api";
      forall i ensures !OccursAt(api, Layouts, i) {
        ApiOccurrenceIsEarlier(realUrl, pos, i);
      }
    }
  }

  /** Any `/_layouts/` in the cut URL plus `/_api` is one of the real URL's,
      starting before the cut: at most its final '/' can lie on the '/' of
      "/_api", and that '/' is the real URL's own, the first character of
      the `/_layouts/` at the cut. */
  lemma ApiOccurrenceIsEarlier(realUrl: string, pos: int, i: int)
    requires OccursAt(realUrl, Layouts, pos)
    ensures OccursAt(realUrl[..pos] + "/_api", Layouts, i) ==> i < pos && OccursAt(realUrl, Layouts, i)
  {
    var pre := realUrl[..pos];
    var api := pre + "/_api";
    if OccursAt(api, Layouts, i) {
      if i + |Layouts| <= pos {
        assert api[i..i + |Layouts|] == pre[i..i + |Layouts|];
        OccursInPrefix(realUrl, pos, Layouts, i);
      } else {
        var j := pos - i;
        assert api[pos] == '/' && api[pos + 1] == '_' && api[pos + 2] == 'a';
        assert api[i + j] == Layouts[j];
        assert j == 9;
        assert realUrl[pos] == '/';
        forall k | i <= k < i + |Layouts|
          ensures realUrl[k] == api[k]
        {
          if k < pos {
            assert realUrl[k] == pre[k];
          }
        }
        assert realUrl[i..i + |Layouts|] == api[i..i + |Layouts|];
      }
    }
  }

  // =====================================================================
  // The FedAuth cookie: FedAuth=([0-9a-zA-Z/+]+) over every Set-Cookie value
  // =====================================================================

  const CookiePrefix := "FedAuth="

  predicate IsTokenChar(c: char)
  {
    '0' <= c <= '9' || 'a' <= c <= 'z' || 'A' <= c <= 'Z' || c == '/' || c == '+'
  }

  predicate AllTokenChars(s: string)
  {
    forall i :: 0 <= i < |s| ==> IsTokenChar(s[i])
  }

  /** Length of the run of token characters starting at `from`. */
  function TokenRun(s: string, from: nat): (n: nat)
    requires from <= |s|
    ensures from + n <= |s|
    ensures forall i :: from <= i < from + n ==> IsTokenChar(s[i])
    ensures from + n == |s| || !IsTokenChar(s[from + n])
    decreases |s| - from
  {
    if from < |s| && IsTokenChar(s[from]) then 1 + TokenRun(s, from + 1) else 0
  }

  /** A match of the cookie pattern starts at `p`. */
  predicate FedAuthAt(v: string, p: int)
  {
    OccursAt(v, CookiePrefix, p) && p + |CookiePrefix| < |v| && IsTokenChar(v[p + |CookiePrefix|])
  }

  /** The captured group of a match at `p`: the greedy run of token
      characters after `FedAuth=`. */
  function GroupAt(v: string, p: nat): string
    requires p + |CookiePrefix| <= |v|
  {
    var g := p + |CookiePrefix|;
    v[g..g + TokenRun(v, g)]
  }

  /** The group of the leftmost match at or after `from`. */
  function FedAuthFrom(v: string, from: nat): (r: Option<string>)
    requires from <= |v|
    ensures r.Some? ==> r.value != "" && AllTokenChars(r.value)
    decreases |v| - from
  {
    if FedAuthAt(v, from) then
      assert GroupAt(v, from)[0] == v[from + |CookiePrefix|];
      Some(GroupAt(v, from))
    else if from == |v| then None
    else FedAuthFrom(v, from + 1)
  }

  /** `re.Matches(val)[0].Groups[1]`, `None` when there is no match. */
  function FirstFedAuth(v: string): (r: Option<string>)
    ensures r.Some? ==> r.value != "" && AllTokenChars(r.value)
  {
    FedAuthFrom(v, 0)
  }

  /** The search finds the leftmost match and captures its group. */
  lemma {:induction false} FedAuthFromSpec(v: string, from: nat)
    requires from <= |v|
    ensures FedAuthFrom(v, from).None? <==> forall p :: from <= p ==> !FedAuthAt(v, p)
    ensures FedAuthFrom(v, from).Some? ==>
              exists p :: from <= p && FedAuthAt(v, p) && FedAuthFrom(v, from).value == GroupAt(v, p)
                && forall q :: from <= q < p ==> !FedAuthAt(v, q)
    decreases |v| - from
  {
    if !FedAuthAt(v, from) && from < |v| {
      FedAuthFromSpec(v, from + 1);
    }
  }

  /** `FirstFedAuth(v)` is `None` exactly when `v` has no match, and
      otherwise the group of the leftmost one. */
  lemma FirstFedAuthSpec(v: string)
    ensures FirstFedAuth(v).None? <==> forall p :: !FedAuthAt(v, p)
    ensures FirstFedAuth(v).Some? ==>
              exists p :: FedAuthAt(v, p) && FirstFedAuth(v).value == GroupAt(v, p)
                && forall q :: 0 <= q < p ==> !FedAuthAt(v, q)
  {
    FedAuthFromSpec(v, 0);
  }

  datatype Header = Header(name: string, values: seq<string>)

  /** Every value of every `Set-Cookie` header, in header order. */
  function CookieValues(headers: seq<Header>): seq<string>
  {
    if headers == [] then []
    else
      var last := headers[|headers| - 1];
      CookieValues(headers[..|headers| - 1]) + (if last.name == "Set-Cookie" then last.values else [])
  }

  /** What the header loop leaves in `fedauth_`: the group of the last
      value that matches, "" when none does. */
  function FedAuthOf(values: seq<string>): string
  {
    if values == [] then ""
    else match FirstFedAuth(values[|values| - 1])
      case Some(t) => t
      case None => FedAuthOf(values[..|values| - 1])
  }

  lemma CookieValuesStep(headers: seq<Header>, h: int)
    requires 0 <= h < |headers|
    ensures CookieValues(headers[..h + 1]) ==
            CookieValues(headers[..h]) + (if headers[h].name == "Set-Cookie" then headers[h].values else [])
    ensures headers[h].name != "Set-Cookie" ==> CookieValues(headers[..h + 1]) == CookieValues(headers[..h])
  {
    assert headers[..h + 1][..h] == headers[..h];
    assert CookieValues(headers[..h]) + [] == CookieValues(headers[..h]);
  }

  lemma FedAuthOfSnoc(values: seq<string>, v: string)
    ensures FedAuthOf(values + [v]) == if FirstFedAuth(v).Some? then FirstFedAuth(v).value else FedAuthOf(values)
  {
    assert (values + [v])[..|values|] == values;
  }

  /** `values[i]` matches and no later value does. */
  predicate LastMatchAt(values: seq<string>, i: int)
  {
    0 <= i < |values| && FirstFedAuth(values[i]).Some?
    && forall j :: i < j < |values| ==> FirstFedAuth(values[j]).None?
  }

  lemma LastMatchExtends(values: seq<string>, i: int)
    requires values != [] && LastMatchAt(values[..|values| - 1], i)
    requires FirstFedAuth(values[|values| - 1]).None?
    ensures LastMatchAt(values, i) && values[i] == values[..|values| - 1][i]
  {
    var init := values[..|values| - 1];
    forall j | i < j < |values|
      ensures FirstFedAuth(values[j]).None?
    {
      if j < |init| {
        assert values[j] == init[j];
      }
    }
  }

  /** The last matching value wins; the token is empty only when no value
      matches, and otherwise is made of token characters. */
  lemma {:induction false} FedAuthOfSpec(values: seq<string>)
    ensures FedAuthOf(values) == "" <==> forall i :: 0 <= i < |values| ==> FirstFedAuth(values[i]).None?
    ensures FedAuthOf(values) != "" ==>
              exists i :: LastMatchAt(values, i) && FirstFedAuth(values[i]).value == FedAuthOf(values)
    ensures AllTokenChars(FedAuthOf(values))
    decreases |values|
  {
    if values != [] {
      var n := |values| - 1;
      var init := values[..n];
      var last := FirstFedAuth(values[n]);
      if last.None? {
        FedAuthOfSpec(init);
        assert forall i :: 0 <= i < n ==> init[i] == values[i];
        if FedAuthOf(init) != "" {
          var i :| LastMatchAt(init, i) && FirstFedAuth(init[i]).value == FedAuthOf(init);
          LastMatchExtends(values, i);
        }
      } else {
        assert LastMatchAt(values, n);
      }
    }
  }

  // =====================================================================
  // Resolution: the Sharepoint(string) constructor
  // =====================================================================

  /** The response to the first, non-redirecting GET of the share link.
      `locationId` is the `id` query parameter of `location`, as
      `HttpUtility.ParseQueryString` reads it. */
  datatype HttpResponse = HttpResponse(
    status: int,
    location: Option<string>,
    locationId: Option<string>,
    headers: seq<Header>)

  /** The JSON reply of `GetSharingLinkData`; `None` marks a missing or
      null property. */
  datatype SharingLinkData = SharingLinkData(objectUniqueId: Option<Id>, objectType: Option<int>)

  /** The outcome of the two requests the constructor makes: `None` means
      the request failed (timed out, or for the JSON call a status other
      than 200 or an unparsable body). */
  datatype Network = Network(shareLink: Option<HttpResponse>, sharingLinkData: Option<SharingLinkData>)

  /** The fields the constructor assigns. */
  datatype Session = Session(
    initialUrl: string,
    realUrl: string,
    relpathBase: string,
    relpathBaseUid: Id,
    relpathBaseIsFile: bool,
    api: string,
    fedAuth: string)

  const Found := 302

  /** What the `Sharepoint(string)` constructor produces or throws. */
  function Resolution(url: string, net: Network): Result<Session, ShareError>
  {
    if !IsShareLink(url) then Err(InvalidUrl(url))
    else if net.shareLink.None? then Err(Timeout(url))
    else
      var rsp := net.shareLink.value;
      if rsp.status != Found then Err(UnexpectedStatus(rsp.status))
      else if rsp.location.None? then Err(NoLocation)
      else
        var realUrl := rsp.location.value;
        if rsp.locationId.None? then Err(UnexpectedLocation(realUrl))
        else if ApiBase(realUrl).None? then Err(UnexpectedUrl(realUrl))
        else
          var fedAuth := FedAuthOf(CookieValues(rsp.headers));
          if fedAuth == "" then Err(NoFedAuth)
          else if net.sharingLinkData.None? then Err(SharingLinkDataFailed)
          else
            var data := net.sharingLinkData.value;
            if data.objectUniqueId.None? then Err(BadUid)
            else if data.objectType != Some(1) && data.objectType != Some(2) then Err(InvalidType(data.objectType))
            else Ok(Session(url, realUrl, rsp.locationId.value, data.objectUniqueId.value,
                            data.objectType == Some(1), ApiBase(realUrl).value, fedAuth))
  }

  /** What a successful resolution guarantees, and the checks that come
      before any request. */
  lemma ResolutionSpec(url: string, net: Network)
    ensures !IsShareLink(url) ==> forall other: Network :: Resolution(url, other) == Err(InvalidUrl(url))
    ensures IsShareLink(url) && net.shareLink.Some? && net.shareLink.value.status != Found ==>
              Resolution(url, net) == Err(UnexpectedStatus(net.shareLink.value.status))
    ensures Resolution(url, net).Ok? ==>
              var s := Resolution(url, net).value;
              && MatchesShareLinkPattern(url)
              && s.initialUrl == url
              && net.shareLink.Some? && net.shareLink.value.status == Found
              && net.shareLink.value.location == Some(s.realUrl)
              && net.shareLink.value.locationId == Some(s.relpathBase)
              && (exists pos :: OccursAt(s.realUrl, Layouts, pos) && s.api == s.realUrl[..pos] + "/_api"
                                && forall i :: !OccursAt(s.realUrl[..pos], Layouts, i))
              && (forall i :: !OccursAt(s.api, Layouts, i))
              && s.fedAuth != "" && AllTokenChars(s.fedAuth)
              && s.fedAuth == FedAuthOf(CookieValues(net.shareLink.value.headers))
              && net.sharingLinkData.Some?
              && net.sharingLinkData.value.objectUniqueId == Some(s.relpathBaseUid)
              && (s.relpathBaseIsFile <==> net.sharingLinkData.value.objectType == Some(1))
              && (!s.relpathBaseIsFile <==> net.sharingLinkData.value.objectType == Some(2))
  {
    IsShareLinkSpec(url);
    if Resolution(url, net).Ok? {
      var s := Resolution(url, net).value;
      ApiBaseSpec(s.realUrl);
      FedAuthOfSpec(CookieValues(net.shareLink.value.headers));
    }
  }

  // =====================================================================
  // The remote tree and the breadth-first crawl
  // =====================================================================

  /** A JSON object of the REST API; `None` marks a missing or null
      property. */
  datatype RemoteObject = RemoteObject(uniqueId: Option<Id>, name: Option<string>, serverRelativeUrl: Option<string>)

  /** The four endpoints `ListFiles` reads, by object id. An id that is not
      a key stands for a request that failed (time-out, a status other than
      200, a body that is not JSON or lacks `value`). */
  datatype Remote = Remote(
    folder: map<Id, RemoteObject>,
    subfolders: map<Id, seq<Option<Id>>>,
    files: map<Id, seq<RemoteObject>>,
    file: map<Id, RemoteObject>)

  function FolderUrl(api: string, id: Id): string
  {
    api + "/web/GetFolderById('" + id + "')"
  }

  function FileUrl(api: string, id: Id): string
  {
    api + "/web/GetFileById('" + id + "')"
  }

  /** The ids that are present, in order. */
  function Somes(xs: seq<Option<Id>>): (r: seq<Id>)
    ensures forall x :: x in r ==> Some(x) in xs
  {
    if xs == [] then []
    else
      var init := Somes(xs[..|xs| - 1]);
      assert forall x :: Some(x) in xs[..|xs| - 1] ==> Some(x) in xs;
      init + (if xs[|xs| - 1].Some? then [xs[|xs| - 1].value] else [])
  }

  /** The subfolder ids a folder lists. */
  /** With every entry present, `Somes` drops nothing: it is the list of
      the entries' values, position by position. */
  lemma {:induction false} SomesAllPresent(xs: seq<Option<Id>>)
    requires None !in xs
    ensures |Somes(xs)| == |xs|
    ensures forall i :: 0 <= i < |xs| ==> xs[i] == Some(Somes(xs)[i])
  {
    if xs != [] {
      var init := xs[..|xs| - 1];
      assert None !in init by {
        forall i | 0 <= i < |init| ensures init[i] != None {
          assert init[i] == xs[i];
        }
      }
      SomesAllPresent(init);
      var last := xs[|xs| - 1];
      assert last in xs;
      var r := Somes(xs);
      assert r == Somes(init) + [last.value];
      forall i | 0 <= i < |xs| ensures xs[i] == Some(r[i]) {
        if i < |init| {
          assert xs[i] == init[i] && r[i] == Somes(init)[i];
        }
      }
    }
  }

  function Children(r: Remote, id: Id): seq<Id>
  {
    if id in r.subfolders then Somes(r.subfolders[id]) else []
  }

  /** The remote hierarchy is a tree (or a DAG): every listed subfolder has
      a smaller rank than its parent, so no folder lies below itself. */
  ghost predicate Ranked(r: Remote, rank: map<Id, nat>)
  {
    forall f :: f in r.subfolders ==>
      f in rank && forall c :: Some(c) in r.subfolders[f] ==> c in rank && rank[c] < rank[f]
  }

  /** Number of expansions that crawling from `id` performs (a folder
      reachable along two paths counts twice, as the crawl expands it
      twice). */
  ghost function Weight(r: Remote, rank: map<Id, nat>, id: Id): nat
    requires Ranked(r, rank)
    decreases if id in r.subfolders then rank[id] else 0, 1
  {
    var bound := if id in r.subfolders then rank[id] else 0;
    1 + WeightBelow(r, rank, Children(r, id), bound)
  }

  ghost function WeightBelow(r: Remote, rank: map<Id, nat>, ids: seq<Id>, bound: nat): nat
    requires Ranked(r, rank)
    requires forall x :: x in ids ==> x in rank && rank[x] < bound
    decreases bound, 0, |ids|
  {
    if ids == [] then 0
    else Weight(r, rank, ids[0]) + WeightBelow(r, rank, ids[1..], bound)
  }

  ghost function QueueWeight(r: Remote, rank: map<Id, nat>, q: seq<Id>): nat
    requires Ranked(r, rank)
  {
    if q == [] then 0 else Weight(r, rank, q[0]) + QueueWeight(r, rank, q[1..])
  }

  lemma {:induction false} QueueWeightAppend(r: Remote, rank: map<Id, nat>, a: seq<Id>, b: seq<Id>)
    requires Ranked(r, rank)
    ensures QueueWeight(r, rank, a + b) == QueueWeight(r, rank, a) + QueueWeight(r, rank, b)
    decreases |a|
  {
    if a == [] {
      assert a + b == b;
    } else {
      assert (a + b)[1..] == a[1..] + b;
      QueueWeightAppend(r, rank, a[1..], b);
    }
  }

  lemma {:induction false} WeightBelowIsQueueWeight(r: Remote, rank: map<Id, nat>, ids: seq<Id>, bound: nat)
    requires Ranked(r, rank)
    requires forall x :: x in ids ==> x in rank && rank[x] < bound
    ensures WeightBelow(r, rank, ids, bound) == QueueWeight(r, rank, ids)
    decreases |ids|
  {
    if ids != [] {
      WeightBelowIsQueueWeight(r, rank, ids[1..], bound);
    }
  }

  /** Expanding the head of the queue shrinks its weight by one. */
  lemma CrawlStep(r: Remote, rank: map<Id, nat>, q: seq<Id>)
    requires Ranked(r, rank) && q != []
    ensures QueueWeight(r, rank, q[1..] + Children(r, q[0])) < QueueWeight(r, rank, q)
  {
    var id := q[0];
    var bound := if id in r.subfolders then rank[id] else 0;
    WeightBelowIsQueueWeight(r, rank, Children(r, id), bound);
    QueueWeightAppend(r, rank, q[1..], Children(r, id));
  }

  /** One step of the crawl and of its order, as both definitions unfold. */
  lemma CrawlUnfold(r: Remote, rank: map<Id, nat>, api: string, q: seq<Id>)
    requires Ranked(r, rank) && q != []
    ensures QueueWeight(r, rank, q[1..] + Children(r, q[0])) < QueueWeight(r, rank, q)
    ensures Expand(r, api, q[0]).Err? ==> Crawl(r, rank, api, q) == Err(Expand(r, api, q[0]).error)
    ensures Expand(r, api, q[0]).Ok? ==>
              Crawl(r, rank, api, q) ==
              Prepend(Expand(r, api, q[0]).value.found, Crawl(r, rank, api, q[1..] + Children(r, q[0])))
  {
    CrawlStep(r, rank, q);
  }

  lemma OrderUnfold(r: Remote, rank: map<Id, nat>, q: seq<Id>)
    requires Ranked(r, rank) && q != []
    ensures QueueWeight(r, rank, q[1..] + Children(r, q[0])) < QueueWeight(r, rank, q)
    ensures Order(r, rank, q) == [q[0]] + Order(r, rank, q[1..] + Children(r, q[0]))
  {
    CrawlStep(r, rank, q);
  }

  lemma PrependPrepend(a: seq<FileInfo>, b: seq<FileInfo>, res: Result<seq<FileInfo>, ShareError>)
    ensures Prepend(a, Prepend(b, res)) == Prepend(a + b, res)
  {
    if res.Ok? {
      assert a + (b + res.value) == (a + b) + res.value;
    }
  }

  /** The result of expanding one folder: its subfolder ids, to be
      enqueued, and one FileInfo per listed file. */
  datatype Expansion = Expansion(children: seq<Id>, found: seq<FileInfo>)

  /** One listed file of folder `dir`, as `new FileInfo(...)` builds it. */
  function ListedFile(api: string, dir: Id, obj: RemoteObject): Result<FileInfo, ShareError>
  {
    if obj.uniqueId.None? || obj.name.None? || obj.serverRelativeUrl.None? then Err(BadSubfile(dir))
    else match NewFileInfo(obj.serverRelativeUrl.value, api, obj.uniqueId.value)
      case Ok(f) => Ok(f)
      case Err(e) => Err(FileInfoFailed(e))
  }

  /** The files of folder `dir`, in listing order; the first bad entry
      aborts. */
  function ListedFiles(api: string, dir: Id, objs: seq<RemoteObject>): (res: Result<seq<FileInfo>, ShareError>)
    ensures res.Ok? ==> |res.value| == |objs|
    ensures res.Ok? ==> forall i :: 0 <= i < |objs| ==> ListedFile(api, dir, objs[i]) == Ok(res.value[i])
  {
    if objs == [] then Ok([])
    else match ListedFiles(api, dir, objs[..|objs| - 1])
      case Err(e) => Err(e)
      case Ok(fs) =>
        match ListedFile(api, dir, objs[|objs| - 1])
        case Err(e) => Err(e)
        case Ok(f) => Ok(fs + [f])
  }

  lemma {:induction false} ListedFilesPrefixFails(api: string, dir: Id, objs: seq<RemoteObject>, k: nat)
    requires k <= |objs| && ListedFiles(api, dir, objs[..k]).Err?
    ensures ListedFiles(api, dir, objs) == ListedFiles(api, dir, objs[..k])
    decreases |objs| - k
  {
    if k < |objs| {
      assert objs[..k + 1][..k] == objs[..k];
      ListedFilesPrefixFails(api, dir, objs, k + 1);
    } else {
      assert objs[..k] == objs;
    }
  }

  /** One iteration of the crawl loop on folder `id`: its metadata, its
      subfolders, its files, each a request that may fail. */
  function Expand(r: Remote, api: string, id: Id): (e: Result<Expansion, ShareError>)
    ensures id !in r.folder ==> e == Err(RequestFailed(FolderUrl(api, id)))
    ensures e.Ok? ==> id in r.folder && id in r.subfolders && id in r.files
    ensures e.Ok? ==> None !in r.subfolders[id]
    ensures e.Ok? ==> e.value.children == Children(r, id)
                      && |e.value.children| == |r.subfolders[id]|
                      && forall i :: 0 <= i < |e.value.children| ==> r.subfolders[id][i] == Some(e.value.children[i])
    ensures e.Ok? ==> |e.value.found| == |r.files[id]|
                      && forall i :: 0 <= i < |r.files[id]| ==> ListedFile(api, id, r.files[id][i]) == Ok(e.value.found[i])
  {
    if id !in r.folder then Err(RequestFailed(FolderUrl(api, id)))
    else if r.folder[id].name.None? || r.folder[id].serverRelativeUrl.None? then Err(BadFolder(id))
    else if id !in r.subfolders then Err(RequestFailed(FolderUrl(api, id) + "/Folders"))
    else if None in r.subfolders[id] then Err(BadSubdir(id))
    else if id !in r.files then Err(RequestFailed(FolderUrl(api, id) + "/Files"))
    else match ListedFiles(api, id, r.files[id])
      case Err(e) => Err(e)
      case Ok(found) =>
        SomesAllPresent(r.subfolders[id]);
        Ok(Expansion(Somes(r.subfolders[id]), found))
  }

  /** `pre` followed by a successful result; a failure stays a failure. */
  function Prepend(pre: seq<FileInfo>, res: Result<seq<FileInfo>, ShareError>): Result<seq<FileInfo>, ShareError>
  {
    if res.Err? then res else Ok(pre + res.value)
  }

  /** What the crawl returns from queue `q`: the files of the folders in
      the order they are dequeued. */
  ghost function Crawl(r: Remote, rank: map<Id, nat>, api: string, q: seq<Id>): Result<seq<FileInfo>, ShareError>
    requires Ranked(r, rank)
    decreases QueueWeight(r, rank, q)
  {
    if q == [] then Ok([])
    else match Expand(r, api, q[0])
      case Err(e) => Err(e)
      case Ok(x) =>
        CrawlStep(r, rank, q);
        Prepend(x.found, Crawl(r, rank, api, q[1..] + x.children))
  }

  /** The folders in the order the crawl dequeues them. */
  ghost function Order(r: Remote, rank: map<Id, nat>, q: seq<Id>): seq<Id>
    requires Ranked(r, rank)
    decreases QueueWeight(r, rank, q)
  {
    if q == [] then []
    else
      CrawlStep(r, rank, q);
      [q[0]] + Order(r, rank, q[1..] + Children(r, q[0]))
  }

  /** The subfolders of each folder of `ids`, concatenated. */
  function ChildrenOf(r: Remote, ids: seq<Id>): seq<Id>
  {
    if ids == [] then [] else Children(r, ids[0]) + ChildrenOf(r, ids[1..])
  }

  /** Breadth-first order: the dequeued folders are exactly the seed
      followed by every folder's subfolders, in the order the folders were
      dequeued and in listing order within each; so every enqueued id is
      dequeued, and expanded, exactly once. */
  lemma {:induction false} OrderIsBreadthFirst(r: Remote, rank: map<Id, nat>, q: seq<Id>)
    requires Ranked(r, rank)
    ensures Order(r, rank, q) == q + ChildrenOf(r, Order(r, rank, q))
    decreases QueueWeight(r, rank, q)
  {
    if q != [] {
      var ch := Children(r, q[0]);
      var q' := q[1..] + ch;
      OrderUnfold(r, rank, q);
      OrderIsBreadthFirst(r, rank, q');
      var o' := Order(r, rank, q');
      ChildrenOfCons(r, q[0], o');
      assert q == [q[0]] + q[1..];
      ConsAssoc(q[0], q[1..], ch, ChildrenOf(r, o'));
    }
  }

  lemma ConsAssoc(x: Id, a: seq<Id>, b: seq<Id>, c: seq<Id>)
    ensures ([x] + a) + (b + c) == [x] + ((a + b) + c)
  {
  }

  lemma ChildrenOfCons(r: Remote, id: Id, ids: seq<Id>)
    ensures ChildrenOf(r, [id] + ids) == Children(r, id) + ChildrenOf(r, ids)
  {
    assert ([id] + ids)[1..] == ids;
  }

  /** The files found in each folder of `ids`, concatenated. */
  function FoundIn(r: Remote, api: string, ids: seq<Id>): seq<FileInfo>
  {
    if ids == [] then []
    else (if Expand(r, api, ids[0]).Ok? then Expand(r, api, ids[0]).value.found else []) + FoundIn(r, api, ids[1..])
  }

  /** How many files the folders of `ids` list. */
  function ListedCount(r: Remote, ids: seq<Id>): nat
  {
    if ids == [] then 0
    else (if ids[0] in r.files then |r.files[ids[0]]| else 0) + ListedCount(r, ids[1..])
  }

  /** Every folder of `ids` can be expanded. */
  predicate AllExpand(r: Remote, api: string, ids: seq<Id>)
  {
    forall i :: 0 <= i < |ids| ==> Expand(r, api, ids[i]).Ok?
  }

  lemma AllExpandCons(r: Remote, api: string, id: Id, ids: seq<Id>)
    ensures AllExpand(r, api, [id] + ids) <==> Expand(r, api, id).Ok? && AllExpand(r, api, ids)
  {
    var l := [id] + ids;
    assert l[0] == id;
    assert forall i :: 0 <= i < |ids| ==> l[i + 1] == ids[i];
    if Expand(r, api, id).Ok? && AllExpand(r, api, ids) {
      forall i | 0 <= i < |l|
        ensures Expand(r, api, l[i]).Ok?
      {
        if i > 0 {
          assert l[i] == ids[i - 1];
        }
      }
    }
  }

  /** The crawl succeeds exactly when every folder it dequeues can be
      expanded. */
  lemma {:induction false} CrawlSucceedsIff(r: Remote, rank: map<Id, nat>, api: string, q: seq<Id>)
    requires Ranked(r, rank)
    ensures Crawl(r, rank, api, q).Ok? <==> AllExpand(r, api, Order(r, rank, q))
    decreases QueueWeight(r, rank, q)
  {
    if q != [] {
      CrawlUnfold(r, rank, api, q);
      OrderUnfold(r, rank, q);
      var q' := q[1..] + Children(r, q[0]);
      AllExpandCons(r, api, q[0], Order(r, rank, q'));
      if Expand(r, api, q[0]).Ok? {
        CrawlSucceedsIff(r, rank, api, q');
      }
    }
  }

  /** A successful crawl returns the concatenation of the dequeued
      folders' file lists, in dequeue order, one entry per listed file,
      nothing removed. */
  lemma {:induction false} CrawlValue(r: Remote, rank: map<Id, nat>, api: string, q: seq<Id>)
    requires Ranked(r, rank)
    ensures Crawl(r, rank, api, q).Ok? ==> Crawl(r, rank, api, q).value == FoundIn(r, api, Order(r, rank, q))
    ensures Crawl(r, rank, api, q).Ok? ==> |Crawl(r, rank, api, q).value| == ListedCount(r, Order(r, rank, q))
    decreases QueueWeight(r, rank, q)
  {
    if q != [] {
      CrawlUnfold(r, rank, api, q);
      OrderUnfold(r, rank, q);
      var q' := q[1..] + Children(r, q[0]);
      var o := Order(r, rank, q);
      var o' := Order(r, rank, q');
      var e := Expand(r, api, q[0]);
      assert o[0] == q[0] && o[1..] == o';
      if e.Ok? {
        CrawlValue(r, rank, api, q');
        assert FoundIn(r, api, o) == e.value.found + FoundIn(r, api, o');
        assert ListedCount(r, o) == |r.files[q[0]]| + ListedCount(r, o');
        assert |e.value.found| == |r.files[q[0]]|;
      }
    }
  }

  /** What `ListFiles` returns for a session. */
  ghost function Listing(r: Remote, rank: map<Id, nat>, s: Session): Result<seq<FileInfo>, ShareError>
    requires Ranked(r, rank)
  {
    if s.relpathBaseIsFile then SingleFile(r, s.api, s.relpathBaseUid)
    else Crawl(r, rank, s.api, [s.relpathBaseUid])
  }

  /** The special case of a shared file: its metadata, one FileInfo. */
  function SingleFile(r: Remote, api: string, uid: Id): Result<seq<FileInfo>, ShareError>
  {
    if uid !in r.file then Err(RequestFailed(FileUrl(api, uid)))
    else if r.file[uid].name.None? || r.file[uid].serverRelativeUrl.None? then Err(BadFile(uid))
    else match NewFileInfo(r.file[uid].serverRelativeUrl.value, api, uid)
      case Ok(f) => Ok([f])
      case Err(e) => Err(FileInfoFailed(e))
  }

  /** A shared file yields exactly one FileInfo, built from its own
      server-relative URL and id; a shared folder yields the breadth-first
      crawl from it. */
  lemma ListingSpec(r: Remote, rank: map<Id, nat>, s: Session)
    requires Ranked(r, rank)
    ensures s.relpathBaseIsFile && Listing(r, rank, s).Ok? ==>
              && s.relpathBaseUid in r.file
              && r.file[s.relpathBaseUid].serverRelativeUrl.Some?
              && Listing(r, rank, s).value ==
                   [NewFileInfo(r.file[s.relpathBaseUid].serverRelativeUrl.value, s.api, s.relpathBaseUid).value]
              && Listing(r, rank, s).value[0].uid == s.relpathBaseUid
              && "/" + Join(Listing(r, rank, s).value[0].pathComponents, '/') ==
                   r.file[s.relpathBaseUid].serverRelativeUrl.value
    ensures !s.relpathBaseIsFile && Listing(r, rank, s).Ok? ==>
              var o := Order(r, rank, [s.relpathBaseUid]);
              && o == [s.relpathBaseUid] + ChildrenOf(r, o)
              && Listing(r, rank, s).value == FoundIn(r, s.api, o)
              && |Listing(r, rank, s).value| == ListedCount(r, o)
  {
    if !s.relpathBaseIsFile {
      OrderIsBreadthFirst(r, rank, [s.relpathBaseUid]);
      CrawlSucceedsIff(r, rank, s.api, [s.relpathBaseUid]);
      CrawlValue(r, rank, s.api, [s.relpathBaseUid]);
    }
  }

  // =====================================================================
  // The Sharepoint class
  // =====================================================================

  class Sharepoint {
    var initialUrl: string
    var realUrl: string
    var relpathBase: string
    var relpathBaseUid: Id
    var relpathBaseIsFile: bool
    var api: string
    var fedAuth: string

    /** The fields as a value. */
    function State(): Session
      reads this
    {
      Session(initialUrl, realUrl, relpathBase, relpathBaseUid, relpathBaseIsFile, api, fedAuth)
    }

    constructor ()
      ensures State() == Session("", "", "", "", false, "", "")
    {
      initialUrl, realUrl, relpathBase, relpathBaseUid := "", "", "", "";
      relpathBaseIsFile, api, fedAuth := false, "", "";
    }

    /** The body of the `Sharepoint(string)` constructor: checks the link,
        reads the redirect, derives the API base, scans the cookies and
        asks for the shared object's id and kind. A thrown exception is
        returned instead; the fields are then meaningless. */
    method Connect(url: string, net: Network) returns (err: Option<ShareError>)
      modifies this
      ensures err.None? <==> Resolution(url, net).Ok?
      ensures err.Some? ==> Resolution(url, net) == Err(err.value)
      ensures err.None? ==> State() == Resolution(url, net).value
    {
      if !IsShareLink(url) {
        return Some(InvalidUrl(url));
      }
      initialUrl := url;

      if net.shareLink.None? {
        return Some(Timeout(url));
      }
      var rsp := net.shareLink.value;
      if rsp.status != Found {
        return Some(UnexpectedStatus(rsp.status));
      }
      if rsp.location.None? {
        return Some(NoLocation);
      }
      realUrl := rsp.location.value;

      if rsp.locationId.None? {
        return Some(UnexpectedLocation(realUrl));
      }
      relpathBase := rsp.locationId.value;

      var s := realUrl;
      var pos := IndexOf(s, Layouts);
      if pos < 0 {
        return Some(UnexpectedUrl(s));
      }
      api := s[..pos] + "/_api";

      ScanCookies(rsp.headers);
      if fedAuth == "" {
        return Some(NoFedAuth);
      }

      if net.sharingLinkData.None? {
        return Some(SharingLinkDataFailed);
      }
      var ret := net.sharingLinkData.value;
      if ret.objectUniqueId.None? {
        return Some(BadUid);
      }
      relpathBaseUid := ret.objectUniqueId.value;
      if ret.objectType == Some(1) {
        relpathBaseIsFile := true;
      } else if ret.objectType == Some(2) {
        relpathBaseIsFile := false;
      } else {
        return Some(InvalidType(ret.objectType));
      }
      return None;
    }

    /** The header loop of the constructor: every value of every
        `Set-Cookie` header is searched, and each match overwrites
        `fedAuth`. */
    method ScanCookies(headers: seq<Header>)
      modifies this`fedAuth
      ensures fedAuth == FedAuthOf(CookieValues(headers))
    {
      fedAuth := "";
      for h := 0 to |headers|
        invariant fedAuth == FedAuthOf(CookieValues(headers[..h]))
      {
        var cookie := headers[h];
        CookieValuesStep(headers, h);
        if cookie.name != "Set-Cookie" {
          continue;
        }
        ghost var before := CookieValues(headers[..h]);
        assert before + cookie.values[..0] == before;
        for k := 0 to |cookie.values|
          invariant fedAuth == FedAuthOf(before + cookie.values[..k])
        {
          assert before + cookie.values[..k + 1] == (before + cookie.values[..k]) + [cookie.values[k]];
          FedAuthOfSnoc(before + cookie.values[..k], cookie.values[k]);
          var m := FirstFedAuth(cookie.values[k]);
          if m.None? {
            continue;
          }
          fedAuth := m.value;
        }
        assert cookie.values[..|cookie.values|] == cookie.values;
      }
      assert headers[..|headers|] == headers;
    }

    /** `ListFiles()`: the single-file special case, or a FIFO queue of
        folder ids drained one folder at a time, appending each folder's
        files to the result. */
    method ListFiles(remote: Remote, ghost rank: map<Id, nat>) returns (res: Result<seq<FileInfo>, ShareError>)
      requires Ranked(remote, rank)
      ensures res == Listing(remote, rank, State())
    {
      if relpathBaseIsFile {
        var url := FileUrl(api, relpathBaseUid);
        if relpathBaseUid !in remote.file {
          return Err(RequestFailed(url));
        }
        var f := remote.file[relpathBaseUid];
        if f.name.None? || f.serverRelativeUrl.None? {
          return Err(BadFile(relpathBaseUid));
        }
        var fi := NewFileInfo(f.serverRelativeUrl.value, api, relpathBaseUid);
        if fi.Err? {
          return Err(FileInfoFailed(fi.error));
        }
        return Ok([fi.value]);
      }

      var q := [relpathBaseUid];
      var ret := [];
      assert Prepend(ret, Crawl(remote, rank, api, q)) == Crawl(remote, rank, api, q) by {
        assert Crawl(remote, rank, api, q).Ok? ==> ret + Crawl(remote, rank, api, q).value == Crawl(remote, rank, api, q).value;
      }
      while |q| > 0
        invariant Crawl(remote, rank, api, [relpathBaseUid]) == Prepend(ret, Crawl(remote, rank, api, q))
        decreases QueueWeight(remote, rank, q)
      {
        ghost var q0 := q;
        ghost var ret0 := ret;
        CrawlUnfold(remote, rank, api, q0);
        var err;
        q, ret, err := VisitFolder(remote, q, ret);
        if err.Some? {
          return Err(err.value);
        }
        PrependPrepend(ret0, Expand(remote, api, q0[0]).value.found, Crawl(remote, rank, api, q));
      }
      assert ret + [] == ret;
      return Ok(ret);
    }

    /** One iteration of the crawl loop: dequeues a folder id, fetches the
        folder, enqueues its subfolders and appends its files. */
    method VisitFolder(remote: Remote, q: seq<Id>, ret: seq<FileInfo>)
      returns (q': seq<Id>, ret': seq<FileInfo>, err: Option<ShareError>)
      requires q != []
      ensures err.Some? <==> Expand(remote, api, q[0]).Err?
      ensures err.Some? ==> err.value == Expand(remote, api, q[0]).error
      ensures err.None? ==> q' == q[1..] + Children(remote, q[0])
      ensures err.None? ==> ret' == ret + Expand(remote, api, q[0]).value.found
    {
      var thisDirUid := q[0];
      q' := q[1..];
      ret' := ret;

      var dirinfoUrl := FolderUrl(api, thisDirUid);
      if thisDirUid !in remote.folder {
        return q', ret', Some(RequestFailed(dirinfoUrl));
      }
      var dirinfo := remote.folder[thisDirUid];
      if dirinfo.name.None? || dirinfo.serverRelativeUrl.None? {
        return q', ret', Some(BadFolder(thisDirUid));
      }

      if thisDirUid !in remote.subfolders {
        return q', ret', Some(RequestFailed(dirinfoUrl + "/Folders"));
      }
      var ok;
      q', ok := EnqueueSubfolders(q', remote.subfolders[thisDirUid]);
      if !ok {
        return q', ret', Some(BadSubdir(thisDirUid));
      }

      if thisDirUid !in remote.files {
        return q', ret', Some(RequestFailed(dirinfoUrl + "/Files"));
      }
      var appended := AppendFiles(ret', thisDirUid, remote.files[thisDirUid]);
      if appended.Err? {
        return q', ret', Some(appended.error);
      }
      ret' := appended.value;
      return q', ret', None;
    }

    /** The subfolder loop of `ListFiles`: appends every listed id to the
        queue, failing on the first null one. */
    method EnqueueSubfolders(q: seq<Id>, subdirs: seq<Option<Id>>) returns (q': seq<Id>, ok: bool)
      ensures ok <==> None !in subdirs
      ensures ok ==> q' == q + Somes(subdirs)
    {
      q' := q;
      for k := 0 to |subdirs|
        invariant q' == q + Somes(subdirs[..k])
        invariant None !in subdirs[..k]
      {
        assert subdirs[..k + 1] == subdirs[..k] + [subdirs[k]];
        assert subdirs[..k + 1][..k] == subdirs[..k];
        if subdirs[k].None? {
          assert subdirs[k] in subdirs;
          return q', false;
        }
        q' := q' + [subdirs[k].value];
      }
      assert subdirs[..|subdirs|] == subdirs;
      return q', true;
    }

    /** The subfile loop of `ListFiles`: appends one FileInfo per listed
        file of folder `dir` to `ret`, failing on the first bad entry. */
    method AppendFiles(ret: seq<FileInfo>, dir: Id, subfiles: seq<RemoteObject>) returns (res: Result<seq<FileInfo>, ShareError>)
      ensures res == Prepend(ret, ListedFiles(api, dir, subfiles))
    {
      var acc := ret;
      ghost var found: seq<FileInfo> := [];
      for k := 0 to |subfiles|
        invariant ListedFiles(api, dir, subfiles[..k]) == Ok(found)
        invariant acc == ret + found
      {
        assert subfiles[..k + 1][..k] == subfiles[..k];
        var obj := subfiles[k];
        if obj.uniqueId.None? || obj.name.None? || obj.serverRelativeUrl.None? {
          ListedFilesPrefixFails(api, dir, subfiles, k + 1);
          return Err(BadSubfile(dir));
        }
        var fi := NewFileInfo(obj.serverRelativeUrl.value, api, obj.uniqueId.value);
        if fi.Err? {
          ListedFilesPrefixFails(api, dir, subfiles, k + 1);
          return Err(FileInfoFailed(fi.error));
        }
        acc := acc + [fi.value];
        found := found + [fi.value];
      }
      assert subfiles[..|subfiles|] == subfiles;
      return Ok(acc);
    }
  }
}
