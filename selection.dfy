/** The interactive file selection of `Program.Main`: each line typed at the
    prompt is "exit", "all", empty, or a comma-separated list of entries,
    an entry being an index `n` or a range `b-e`. The lines come in as a
    sequence; running out of them is the end of input. */
module Selection {
  import opened Wrappers
  import opened Text
  import opened Numbers

  /** What one entry does. `Int32.Parse` throwing is `NotANumber`; an
      index outside `0..maxIndex` makes `Main` print "Invalid index". */
  datatype Entry = NotANumber | OutOfRange | Indices(lo: int, hi: int)

  /** What one line does to the selection: an exception propagates out of
      `Main`; a rejected line keeps what its earlier entries added. */
  datatype LineResult = Thrown | Rejected(kept: set<int>) | Accepted(indices: set<int>)

  /** How the prompt ends: `Main` returns, `Main` throws, or the loop is
      left with a set of indices (empty: every file). */
  datatype Selection = Exit | Crash | Chosen(indices: set<int>)

  predicate Between(lo: int, j: int, hi: int)
  {
    lo <= j <= hi
  }

  /** `lo..hi`, both included. */
  function Range(lo: int, hi: int): set<int>
  {
    set j | lo <= j <= hi && Between(lo, j, hi)
  }

  /** One entry of a line. An entry holding '-' is a range: the text
      before the first '-' and the text between it and the next one are
      parsed, in that order, and must satisfy `0 <= b <= e <= maxIndex`. */
  function ParseEntry(e: string, maxIndex: int): (r: Entry)
    ensures r.Indices? ==> 0 <= r.lo <= r.hi <= maxIndex
  {
    if '-' in e then
      SplitAtSeparator(e, '-');
      var x := Split(e, '-');
      var begin := ParseInt32(x[0]);
      var end := ParseInt32(x[1]);
      if begin.None? || end.None? then NotANumber
      else if begin.value < 0 || begin.value > maxIndex || end.value < 0 || end.value > maxIndex
              || end.value < begin.value then OutOfRange
      else Indices(begin.value, end.value)
    else
      var n := ParseInt32(e);
      if n.None? then NotANumber
      else if n.value < 0 || n.value > maxIndex then OutOfRange
      else Indices(n.value, n.value)
  }

  /** The `foreach` over the entries of one line, adding to `sel`. */
  function ScanLine(entries: seq<string>, maxIndex: int, sel: set<int>): LineResult
    decreases |entries|
  {
    if entries == [] then Accepted(sel)
    else
      match ParseEntry(entries[0], maxIndex)
      case NotANumber => Thrown
      case OutOfRange => Rejected(sel)
      case Indices(lo, hi) => ScanLine(entries[1..], maxIndex, sel + Range(lo, hi))
  }

  /** The `while (!ok)` loop, from the lines not yet read and the set so far. */
  function Prompt(lines: seq<string>, maxIndex: int, sel: set<int>): Selection
    decreases |lines|
  {
    if lines == [] || lines[0] == "exit" then Exit
    else if lines[0] == "" then Prompt(lines[1..], maxIndex, sel)
    else if lines[0] == "all" then Chosen(sel)
    else
      match ScanLine(Split(lines[0], ','), maxIndex, sel)
      case Thrown => Crash
      case Rejected(kept) => Prompt(lines[1..], maxIndex, kept)
      case Accepted(s) => Chosen(s)
  }

  // ---------------------------------------------------------------------
  // The loops of `Main`
  // ---------------------------------------------------------------------

  /** The selection loop, starting from the empty set. */
  method ReadSelection(lines: seq<string>, maxIndex: int) returns (r: Selection)
    ensures r == Prompt(lines, maxIndex, {})
  {
    var selected: set<int> := {};
    var ok := false;
    var i := 0;
    while !ok
      invariant 0 <= i <= |lines|
      invariant !ok ==> Prompt(lines, maxIndex, {}) == Prompt(lines[i..], maxIndex, selected)
      invariant ok ==> Prompt(lines, maxIndex, {}) == Chosen(selected)
      decreases |lines| - i, if ok then 0 else 1
    {
      if i == |lines| {
        return Exit;
      }
      var input := lines[i];
      assert lines[i..][0] == input && lines[i..][1..] == lines[i + 1..];
      i := i + 1;
      if input == "exit" {
        return Exit;
      }
      if input == "" {
        continue;
      }
      if input == "all" {
        break;
      }
      var res := AddLine(Split(input, ','), maxIndex, selected);
      match res {
        case Thrown =>
          return Crash;
        case Rejected(kept) =>
          selected := kept;
        case Accepted(s) =>
          selected := s;
          ok := true;
      }
    }
    return Chosen(selected);
  }

  /** The `foreach` over the entries of one line; stops at the first
      invalid entry. */
  method AddLine(entries: seq<string>, maxIndex: int, sel: set<int>) returns (res: LineResult)
    ensures res == ScanLine(entries, maxIndex, sel)
  {
    var selected := sel;
    for k := 0 to |entries|
      invariant ScanLine(entries, maxIndex, sel) == ScanLine(entries[k..], maxIndex, selected)
    {
      assert entries[k..][0] == entries[k] && entries[k..][1..] == entries[k + 1..];
      var e := ParseEntry(entries[k], maxIndex);
      match e {
        case NotANumber =>
          return Thrown;
        case OutOfRange =>
          return Rejected(selected);
        case Indices(lo, hi) =>
          selected := AddRange(selected, lo, hi);
      }
    }
    assert entries[|entries|..] == [];
    return Accepted(selected);
  }

  /** The inner loop of a range entry: adds each index from `lo` up to
      `hi` inclusive. */
  method AddRange(sel: set<int>, lo: int, hi: int) returns (s: set<int>)
    requires lo <= hi
    ensures s == sel + Range(lo, hi)
  {
    s := sel;
    var j := lo;
    while j <= hi
      invariant lo <= j <= hi + 1
      invariant s == sel + Range(lo, j - 1)
      decreases hi - j
    {
      s := s + {j};
      j := j + 1;
    }
  }

  // ---------------------------------------------------------------------
  // What an entry means
  // ---------------------------------------------------------------------

  /** An index the program prints selects that file, when it is in range. */
  lemma SingleEntry(n: int, maxIndex: int)
    requires 0 <= n && IsInt32(n)
    ensures ParseEntry(Decimal(n), maxIndex) == if n <= maxIndex then Indices(n, n) else OutOfRange
  {
    ParseDecimal(n);
    assert '-' !in Decimal(n) by {
      var d := Decimal(n);
      assert forall i :: 0 <= i < |d| ==> IsDigit(d[i]);
    }
  }

  /** A range `b-e` of printed indices selects exactly `b..e` when
      `0 <= b <= e <= maxIndex`, and is rejected otherwise. */
  lemma RangeEntry(b: int, e: int, maxIndex: int)
    requires 0 <= b && IsInt32(b) && 0 <= e && IsInt32(e)
    ensures ParseEntry(Decimal(b) + "-" + Decimal(e), maxIndex) ==
              if b <= e <= maxIndex then Indices(b, e) else OutOfRange
  {
    var db, de := Decimal(b), Decimal(e);
    assert '-' !in db && '-' !in de by {
      assert forall i :: 0 <= i < |db| ==> IsDigit(db[i]);
      assert forall i :: 0 <= i < |de| ==> IsDigit(de[i]);
    }
    var s := db + "-" + de;
    assert s == Join([db, de], '-');
    SplitJoin([db, de], '-');
    assert '-' in s by { assert s[|db|] == '-'; }
    ParseDecimal(b);
    ParseDecimal(e);
  }

  /** A negative index never gets as far as the range check: its '-' makes
      it a range whose beginning is empty, and parsing that throws. */
  lemma NegativeEntry(n: int, maxIndex: int)
    requires 0 < n && IsInt32(n)
    ensures ParseEntry("-" + Decimal(n), maxIndex) == NotANumber
  {
    var s := "-" + Decimal(n);
    assert s[0] == '-';
    SplitAtSeparator(s, '-');
    assert Split(s, '-')[0] == "";
  }

  // ---------------------------------------------------------------------
  // What a line means
  // ---------------------------------------------------------------------

  predicate AllValid(entries: seq<string>, maxIndex: int)
  {
    forall k :: 0 <= k < |entries| ==> ParseEntry(entries[k], maxIndex).Indices?
  }

  /** The indices a line of valid entries names. */
  function Denoted(entries: seq<string>, maxIndex: int): set<int>
    requires AllValid(entries, maxIndex)
    decreases |entries|
  {
    if entries == [] then {}
    else
      var e := ParseEntry(entries[0], maxIndex);
      Range(e.lo, e.hi) + Denoted(entries[1..], maxIndex)
  }

  /** `entries[k]` is the first invalid entry. */
  predicate FirstInvalidAt(entries: seq<string>, maxIndex: int, k: int)
  {
    0 <= k < |entries| && !ParseEntry(entries[k], maxIndex).Indices?
    && forall j :: 0 <= j < k ==> ParseEntry(entries[j], maxIndex).Indices?
  }

  /** A line is accepted exactly when every entry is valid, and then adds
      exactly the indices its entries name. */
  lemma {:induction false} ScanLineAccepted(entries: seq<string>, maxIndex: int, sel: set<int>)
    ensures ScanLine(entries, maxIndex, sel).Accepted? <==> AllValid(entries, maxIndex)
    ensures AllValid(entries, maxIndex) ==>
              ScanLine(entries, maxIndex, sel) == Accepted(sel + Denoted(entries, maxIndex))
    decreases |entries|
  {
    if entries != [] {
      var e := ParseEntry(entries[0], maxIndex);
      var rest := entries[1..];
      assert forall j :: 0 <= j < |rest| ==> rest[j] == entries[j + 1];
      if e.Indices? {
        ScanLineAccepted(rest, maxIndex, sel + Range(e.lo, e.hi));
        assert AllValid(entries, maxIndex) <==> AllValid(rest, maxIndex) by {
          if AllValid(rest, maxIndex) {
            assert forall k :: 1 <= k < |entries| ==> entries[k] == rest[k - 1];
          }
        }
        if AllValid(entries, maxIndex) {
          assert sel + Range(e.lo, e.hi) + Denoted(rest, maxIndex) == sel + Denoted(entries, maxIndex);
        }
      } else {
        assert !ParseEntry(entries[0], maxIndex).Indices?;
      }
    }
  }

  /** The first invalid entry ends the line: a bad number throws, an index
      out of range rejects the line, and the indices the entries before it
      added stay in the set. */
  lemma {:induction false} ScanLineStops(entries: seq<string>, maxIndex: int, sel: set<int>, k: int)
    requires FirstInvalidAt(entries, maxIndex, k)
    ensures AllValid(entries[..k], maxIndex)
    ensures ScanLine(entries, maxIndex, sel) ==
              if ParseEntry(entries[k], maxIndex).NotANumber? then Thrown
              else Rejected(sel + Denoted(entries[..k], maxIndex))
    decreases k
  {
    assert AllValid(entries[..k], maxIndex);
    if k > 0 {
      var e := ParseEntry(entries[0], maxIndex);
      assert e.Indices?;
      var rest := entries[1..];
      assert ScanLine(entries, maxIndex, sel) == ScanLine(rest, maxIndex, sel + Range(e.lo, e.hi));
      assert FirstInvalidAt(rest, maxIndex, k - 1) by {
        assert forall j :: 0 <= j < |rest| ==> rest[j] == entries[j + 1];
      }
      ScanLineStops(rest, maxIndex, sel + Range(e.lo, e.hi), k - 1);
      DenotedFront(entries, maxIndex, k);
      assert sel + Range(e.lo, e.hi) + Denoted(rest[..k - 1], maxIndex) == sel + Denoted(entries[..k], maxIndex);
    } else {
      assert entries[..0] == [];
    }
  }

  /** The indices of the first k valid entries: those of the first entry,
      then those of the next k - 1. */
  lemma DenotedFront(entries: seq<string>, maxIndex: int, k: int)
    requires 0 < k <= |entries| && AllValid(entries[..k], maxIndex)
    ensures ParseEntry(entries[0], maxIndex).Indices?
    ensures AllValid(entries[1..][..k - 1], maxIndex)
    ensures var e := ParseEntry(entries[0], maxIndex);
            Denoted(entries[..k], maxIndex) == Range(e.lo, e.hi) + Denoted(entries[1..][..k - 1], maxIndex)
  {
    var p := entries[..k];
    assert p[0] == entries[0];
    assert p[1..] == entries[1..][..k - 1];
  }

  /** A line only ever adds indices in `0..maxIndex`. */
  lemma {:induction false} ScanLineBounds(entries: seq<string>, maxIndex: int, sel: set<int>)
    ensures var r := ScanLine(entries, maxIndex, sel);
            (r.Accepted? ==> sel <= r.indices <= sel + Range(0, maxIndex))
            && (r.Rejected? ==> sel <= r.kept <= sel + Range(0, maxIndex))
    decreases |entries|
  {
    if entries != [] {
      var e := ParseEntry(entries[0], maxIndex);
      if e.Indices? {
        ScanLineBounds(entries[1..], maxIndex, sel + Range(e.lo, e.hi));
        assert Range(e.lo, e.hi) <= Range(0, maxIndex);
      }
    }
  }

  // ---------------------------------------------------------------------
  // What the prompt means
  // ---------------------------------------------------------------------

  /** The loop only ever chooses indices in `0..maxIndex`, on top of the
      set it started from. */
  lemma {:induction false} PromptBounds(lines: seq<string>, maxIndex: int, sel: set<int>)
    ensures Prompt(lines, maxIndex, sel).Chosen? ==>
              sel <= Prompt(lines, maxIndex, sel).indices <= sel + Range(0, maxIndex)
    decreases |lines|
  {
    if lines != [] && lines[0] != "exit" {
      if lines[0] == "" {
        PromptBounds(lines[1..], maxIndex, sel);
      } else if lines[0] != "all" {
        var r := ScanLine(Split(lines[0], ','), maxIndex, sel);
        ScanLineBounds(Split(lines[0], ','), maxIndex, sel);
        if r.Rejected? {
          PromptBounds(lines[1..], maxIndex, r.kept);
        }
      }
    }
  }

  /** A rejected line is not forgotten: after "b,n" with `n` out of range,
      answering "all" chooses `{b}` rather than the empty set that stands
      for every file. */
  lemma AllAfterRejectedLine(b: int, n: int, maxIndex: int)
    requires 0 <= b <= maxIndex < n && IsInt32(n)
    ensures Prompt([Decimal(b) + "," + Decimal(n), "all"], maxIndex, {}) == Chosen({b})
  {
    var db, dn := Decimal(b), Decimal(n);
    var line := db + "," + dn;
    assert ',' !in db && ',' !in dn by {
      assert forall i :: 0 <= i < |db| ==> IsDigit(db[i]);
      assert forall i :: 0 <= i < |dn| ==> IsDigit(dn[i]);
    }
    assert line == Join([db, dn], ',');
    SplitJoin([db, dn], ',');
    assert line != "" && line != "exit" && line != "all" by { assert line[|db|] == ','; }
    SingleEntry(b, maxIndex);
    SingleEntry(n, maxIndex);
    var entries := [db, dn];
    assert Split(line, ',') == entries;
    assert entries[1..] == [dn] && [dn][1..] == [];
    assert ScanLine([dn], maxIndex, Range(b, b)) == Rejected(Range(b, b));
    assert ScanLine(entries, maxIndex, {}) == ScanLine([dn], maxIndex, {} + Range(b, b));
    assert Range(b, b) == {b};
    var lines := [line, "all"];
    assert lines[1..] == ["all"];
    assert Prompt(lines, maxIndex, {}) == Prompt(["all"], maxIndex, {b});
  }
}
