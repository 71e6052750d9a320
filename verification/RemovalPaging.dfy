// Keyset paging over the removal journal: internal/server/log_removals.go scans
// the newest lines backwards and hands out the last instant of a full page as
// the cursor of the next one.
module RemovalPaging {
  import opened Basics

  const PAGE_DEFAULT: nat := 50
  const PAGE_MAX: nat := 200
  const SCAN_CAP: nat := 10_000

  datatype Record = Record(ts: int, pool: int, runner: string, reason: string)

  // One line of removals.jsonl; TooLong is a line over the scanner's limit.
  datatype Line = Blank | Malformed | Rec(r: Record) | TooLong

  // Zero values mean "no filter".
  datatype Filter = Filter(pool: int, runner: string, reason: string, since: int, until: int)

  predicate Matches(f: Filter, r: Record) {
    && (f.pool == 0 || r.pool == f.pool)
    && (f.runner == "" || r.runner == f.runner)
    && (f.reason == "" || r.reason == f.reason)
    && (f.since == 0 || r.ts >= f.since)
    && (f.until == 0 || r.ts <= f.until)
  }

  // A record the page with this cursor may contain (cursor 0: the first page).
  predicate Wanted(l: Line, f: Filter, cursor: int) {
    l.Rec? && (cursor == 0 || l.r.ts < cursor) && Matches(f, l.r)
  }

  // The wanted records, newest (last line) first.
  function Newest(lines: seq<Line>, f: Filter, cursor: int): seq<Record> {
    if lines == [] then []
    else
      var last := lines[|lines| - 1];
      (if Wanted(last, f, cursor) then [last.r] else []) + Newest(lines[..|lines| - 1], f, cursor)
  }

  function NonBlank(lines: seq<Line>): seq<Line> {
    if lines == [] then []
    else NonBlank(lines[..|lines| - 1]) + if lines[|lines| - 1].Blank? then [] else [lines[|lines| - 1]]
  }

  function LastN<T>(s: seq<T>, n: nat): seq<T> {
    if |s| <= n then s else s[|s| - n..]
  }

  function FirstN<T>(s: seq<T>, n: nat): seq<T> {
    if |s| <= n then s else s[..n]
  }

  function EffectiveSize(pageSize: nat): (n: nat)
    ensures 1 <= n <= PAGE_MAX
    ensures (pageSize == 0 ==> n == 50) && (0 < pageSize <= 200 ==> n == pageSize) && (pageSize > 200 ==> n == 200)
  {
    if pageSize == 0 then PAGE_DEFAULT else Min(pageSize, PAGE_MAX)
  }

  lemma LastNSnoc<T>(s: seq<T>, x: T, n: nat)
    ensures LastN(s + [x], n) == var r := LastN(s, n) + [x]; if |r| > n then r[1..] else r
  {
    if |s| >= n { assert (s[|s| - n..] + [x])[1..] == (s + [x])[|s| + 1 - n..]; }
  }

  // The ring after one more line.
  lemma RingNext(file: seq<Line>, i: nat, n: nat)
    requires i < |file|
    ensures var ring, ring1 := LastN(NonBlank(file[..i]), n), LastN(NonBlank(file[..i + 1]), n);
      if file[i].Blank? then ring1 == ring
      else if |ring| < n then ring1 == ring + [file[i]]
      else ring1 == (ring + [file[i]])[1..]
  {
    assert file[..i + 1][..i] == file[..i];
    LastNSnoc(NonBlank(file[..i]), file[i], n);
  }

  // readLastLines: the last maxLines non-blank lines, oldest first; a line over
  // the limit fails the whole read.
  method ReadLastLines(file: seq<Line>, maxLines: nat) returns (ok: bool, ring: seq<Line>)
    ensures ok <==> TooLong !in file
    ensures ok ==> ring == LastN(NonBlank(file), maxLines)
    ensures ok ==> |ring| == Min(maxLines, |NonBlank(file)|) && ring == NonBlank(file)[|NonBlank(file)| - |ring|..]
  {
    ring := [];
    for i := 0 to |file|
      invariant ring == LastN(NonBlank(file[..i]), maxLines)
      invariant forall j :: 0 <= j < i ==> !file[j].TooLong?
    {
      RingNext(file, i, maxLines);
      if file[i].TooLong? {
        return false, [];
      }
      if !file[i].Blank? {
        ring := ring + [file[i]];
        if |ring| > maxLines { ring := ring[1..]; }
      }
    }
    assert file[..|file|] == file;
    ok := true;
  }

  datatype Response = Page(records: seq<Record>, next: int) | InvalidArgument | Internal

  // The page a request answers, and the cursor it hands out (0: none).
  function PageOf(lines: seq<Line>, f: Filter, cursor: int, size: nat): seq<Record> {
    FirstN(Newest(lines, f, cursor), size)
  }

  function NextCursor(page: seq<Record>, size: nat): int
    requires size > 0
  {
    if |page| == size then page[size - 1].ts else 0
  }

  // ListRemovalRecords; file is None when the journal does not exist.
  method ListRemovalRecords(file: Option<seq<Line>>, f: Filter, cursor: int, pageSize: int) returns (resp: Response)
    ensures resp.InvalidArgument? <==> pageSize < 0
    ensures resp.Internal? <==> pageSize >= 0 && file.Some? && TooLong in file.value
    ensures pageSize >= 0 && file.None? ==> resp == Page([], 0)
    ensures resp.Page? && file.Some? ==>
      var size := EffectiveSize(pageSize);
      var page := PageOf(LastN(NonBlank(file.value), SCAN_CAP), f, cursor, size);
      resp == Page(page, NextCursor(page, size))
  {
    if pageSize < 0 { return InvalidArgument; }
    var size := EffectiveSize(pageSize);
    if file.None? { return Page([], 0); }
    var ok, lines := ReadLastLines(file.value, SCAN_CAP);
    if !ok { return Internal; }
    var records := ScanPage(lines, f, cursor, size);
    resp := Page(records, NextCursor(records, size));
  }

  lemma ScanNext(lines: seq<Line>, i: nat, f: Filter, cursor: int, records: seq<Record>)
    requires i < |lines|
    ensures records + Newest(lines[..i + 1], f, cursor) ==
      (if Wanted(lines[i], f, cursor) then records + [lines[i].r] else records) + Newest(lines[..i], f, cursor)
  {
    assert lines[..i + 1][..i] == lines[..i];
  }

  // The reverse scan, stopping at a full page.
  method ScanPage(lines: seq<Line>, f: Filter, cursor: int, size: nat) returns (records: seq<Record>)
    ensures records == PageOf(lines, f, cursor, size)
  {
    records := [];
    var i := |lines|;
    assert lines[..i] == lines;
    while i > 0 && |records| < size
      invariant 0 <= i <= |lines| && |records| <= size
      invariant records + Newest(lines[..i], f, cursor) == Newest(lines, f, cursor)
    {
      i := i - 1;
      ScanNext(lines, i, f, cursor, records);
      var l := lines[i];
      if !l.Rec? { continue; }
      var rec := l.r;
      if cursor != 0 && !(rec.ts < cursor) { continue; }
      if f.pool != 0 && rec.pool != f.pool { continue; }
      if f.runner != "" && rec.runner != f.runner { continue; }
      if f.reason != "" && rec.reason != f.reason { continue; }
      if f.since != 0 && rec.ts < f.since { continue; }
      if f.until != 0 && rec.ts > f.until { continue; }
      records := records + [rec];
    }
  }

  // ---- Following the cursor ------------------------------------------------

  // The writer stamps each record at write time, so that later lines are not older.
  predicate Stamped(lines: seq<Line>) {
    && (forall i :: 0 <= i < |lines| && lines[i].Rec? ==> lines[i].r.ts > 0)
    && (forall i, j :: 0 <= i < j < |lines| && lines[i].Rec? && lines[j].Rec? ==> lines[i].r.ts <= lines[j].r.ts)
  }

  // Newest first.
  predicate Descending(all: seq<Record>) {
    (forall i :: 0 <= i < |all| ==> all[i].ts > 0) && forall i, j :: 0 <= i < j < |all| ==> all[i].ts >= all[j].ts
  }

  lemma {:induction false} NewestBounds(lines: seq<Line>, f: Filter, cursor: int)
    requires Stamped(lines)
    ensures Descending(Newest(lines, f, cursor))
    ensures forall r :: r in Newest(lines, f, cursor) ==> Rec(r) in lines
  {
    if lines != [] {
      var before, last := lines[..|lines| - 1], lines[|lines| - 1];
      NewestBounds(before, f, cursor);
      assert lines == before + [last];
      forall r | r in Newest(before, f, cursor) ensures Rec(r) in lines && (last.Rec? ==> r.ts <= last.r.ts) {
        assert Rec(r) in before;
      }
    }
  }

  // The records strictly older than an instant.
  function Older(all: seq<Record>, ts: int): (rest: seq<Record>)
    ensures |rest| <= |all|
  {
    if all == [] then [] else (if all[0].ts < ts then [all[0]] else []) + Older(all[1..], ts)
  }

  lemma OlderCons(x: Record, s: seq<Record>, ts: int)
    ensures Older([x] + s, ts) == (if x.ts < ts then [x] else []) + Older(s, ts)
  {
    assert ([x] + s)[1..] == s;
  }

  // A cursor within the old one selects the older records among the old ones.
  lemma {:induction false} CursorSelects(lines: seq<Line>, f: Filter, cursor: int, ts: int)
    requires ts > 0 && (cursor == 0 || ts <= cursor)
    ensures Newest(lines, f, ts) == Older(Newest(lines, f, cursor), ts)
  {
    if lines != [] {
      var before, last := lines[..|lines| - 1], lines[|lines| - 1];
      CursorSelects(before, f, cursor, ts);
      if Wanted(last, f, cursor) {
        OlderCons(last.r, Newest(before, f, cursor), ts);
      } else {
        assert Newest(lines, f, cursor) == Newest(before, f, cursor);
      }
    }
  }

  lemma DescendingTail(all: seq<Record>)
    requires Descending(all) && all != []
    ensures Descending(all[1..]) && forall i :: 1 <= i < |all| ==> all[i] == all[1..][i - 1] && all[i].ts <= all[0].ts
  {
  }

  // In descending order the older records are the last ones.
  lemma {:induction false} OlderWhich(all: seq<Record>, ts: int)
    requires Descending(all)
    ensures forall i :: 0 <= i < |all| ==> (all[i].ts < ts <==> i >= |all| - |Older(all, ts)|)
  {
    if all != [] {
      DescendingTail(all);
      if all[0].ts < ts {
        OlderAll(all, ts);
      } else {
        OlderWhich(all[1..], ts);
        assert |Older(all, ts)| == |Older(all[1..], ts)|;
      }
    }
  }

  lemma OlderTail(all: seq<Record>, ts: int)
    requires all != [] && all[0].ts >= ts
    ensures Older(all, ts) == Older(all[1..], ts)
  {
  }

  lemma {:induction false} OlderSuffix(all: seq<Record>, ts: int)
    requires Descending(all)
    ensures Older(all, ts) == all[|all| - |Older(all, ts)|..]
  {
    if all != [] {
      DescendingTail(all);
      if all[0].ts < ts {
        OlderAll(all, ts);
      } else {
        OlderSuffix(all[1..], ts);
        OlderTail(all, ts);
        DropDrop(all, 1, |all| - 1 - |Older(all[1..], ts)|);
      }
    }
  }

  lemma {:induction false} OlderAll(all: seq<Record>, ts: int)
    requires forall i :: 0 <= i < |all| ==> all[i].ts < ts
    ensures Older(all, ts) == all
  {
    if all != [] {
      OlderAll(all[1..], ts);
      assert all == [all[0]] + all[1..];
    }
  }

  // The cursor of record k leaves the records after k, unless the next one carries
  // the same instant.
  predicate StrictAfter(all: seq<Record>, k: nat)
    requires k < |all|
  {
    k + 1 < |all| ==> all[k].ts > all[k + 1].ts
  }

  lemma OlderThan(lines: seq<Line>, f: Filter, cursor: int, k: nat)
    requires Stamped(lines) && k < |Newest(lines, f, cursor)|
    ensures var all := Newest(lines, f, cursor);
      Newest(lines, f, all[k].ts) == all[k + 1..] <==> StrictAfter(all, k)
  {
    CursorOf(lines, f, cursor, k);
    NewestBounds(lines, f, cursor);
    AfterK(Newest(lines, f, cursor), k);
  }

  lemma CursorOf(lines: seq<Line>, f: Filter, cursor: int, k: nat)
    requires Stamped(lines) && k < |Newest(lines, f, cursor)|
    ensures var all := Newest(lines, f, cursor);
      all[k].ts > 0 && Newest(lines, f, all[k].ts) == Older(all, all[k].ts) && |Older(all, all[k].ts)| < |all|
  {
    var all := Newest(lines, f, cursor);
    NewestBounds(lines, f, cursor);
    NewestWanted(lines, f, cursor, all[k]);
    CursorSelects(lines, f, cursor, all[k].ts);
    OlderWhich(all, all[k].ts);
  }

  lemma {:induction false} NewestWanted(lines: seq<Line>, f: Filter, cursor: int, r: Record)
    requires r in Newest(lines, f, cursor)
    ensures Wanted(Rec(r), f, cursor)
  {
    var before, last := lines[..|lines| - 1], lines[|lines| - 1];
    if r in Newest(before, f, cursor) { NewestWanted(before, f, cursor, r); }
  }

  lemma AfterK(all: seq<Record>, k: nat)
    requires Descending(all) && k < |all|
    ensures Older(all, all[k].ts) == all[k + 1..] <==> StrictAfter(all, k)
    ensures |Older(all, all[k].ts)| <= |all| - k - 1
    ensures !StrictAfter(all, k) ==> |Older(all, all[k].ts)| < |all| - k - 1
  {
    OlderWhich(all, all[k].ts);
    OlderSuffix(all, all[k].ts);
    assert k < |all| - |Older(all, all[k].ts)|;
    if StrictAfter(all, k) && k + 1 < |all| { assert all[k + 1].ts < all[k].ts; }
  }

  // A client following next_cursor until it is empty.
  function Follow(lines: seq<Line>, f: Filter, cursor: int, size: nat): seq<Record>
    requires Stamped(lines) && size > 0
    decreases |Newest(lines, f, cursor)|
  {
    var page := PageOf(lines, f, cursor, size);
    var next := NextCursor(page, size);
    if next == 0 then page
    else
      CursorOf(lines, f, cursor, size - 1);
      page + Follow(lines, f, next, size)
  }

  // No page boundary separates two records of one instant.
  predicate NoSplit(all: seq<Record>, size: nat)
    requires size > 0
  {
    |all| > size ==> all[size - 1].ts > all[size].ts && NoSplit(all[size..], size)
  }

  lemma {:induction false} FollowShorter(lines: seq<Line>, f: Filter, cursor: int, size: nat)
    requires Stamped(lines) && size > 0
    ensures |Follow(lines, f, cursor, size)| <= |Newest(lines, f, cursor)|
    decreases |Newest(lines, f, cursor)|
  {
    var all := Newest(lines, f, cursor);
    if |all| >= size {
      CursorOf(lines, f, cursor, size - 1);
      NewestBounds(lines, f, cursor);
      AfterK(all, size - 1);
      FollowShorter(lines, f, all[size - 1].ts, size);
    }
  }

  // The client ends with every matching record exactly once, newest first, exactly
  // when no page boundary separates two records of one instant: the rest of that
  // instant is skipped.
  lemma {:induction false} FollowReturnsAll(lines: seq<Line>, f: Filter, cursor: int, size: nat)
    requires Stamped(lines) && size > 0
    ensures Follow(lines, f, cursor, size) == Newest(lines, f, cursor) <==> NoSplit(Newest(lines, f, cursor), size)
    decreases |Newest(lines, f, cursor)|
  {
    var all := Newest(lines, f, cursor);
    if |all| > size {
      FollowPage(lines, f, cursor, size);
      CursorOf(lines, f, cursor, size - 1);
      NewestBounds(lines, f, cursor);
      AfterK(all, size - 1);
      if StrictAfter(all, size - 1) {
        FollowReturnsAll(lines, f, all[size - 1].ts, size);
        SamePrefix(all, size, Follow(lines, f, all[size - 1].ts, size));
      } else {
        FollowShorter(lines, f, all[size - 1].ts, size);
      }
    } else {
      ShortFollow(lines, f, cursor, size);
    }
  }

  lemma PageIs(all: seq<Record>, size: nat)
    requires 0 < size <= |all|
    ensures FirstN(all, size) == all[..size] && NextCursor(FirstN(all, size), size) == all[size - 1].ts
  {
    if |all| == size { TakeAll(all); }
  }

  lemma FollowPage(lines: seq<Line>, f: Filter, cursor: int, size: nat)
    requires Stamped(lines) && 0 < size <= |Newest(lines, f, cursor)|
    ensures var all := Newest(lines, f, cursor);
      Follow(lines, f, cursor, size) == all[..size] + Follow(lines, f, all[size - 1].ts, size)
  {
    var all := Newest(lines, f, cursor);
    PageIs(all, size);
    NewestBounds(lines, f, cursor);
    assert all[size - 1].ts > 0;
  }

  lemma ShortFollow(lines: seq<Line>, f: Filter, cursor: int, size: nat)
    requires Stamped(lines) && size > 0 && |Newest(lines, f, cursor)| <= size
    ensures Follow(lines, f, cursor, size) == Newest(lines, f, cursor)
  {
    var all := Newest(lines, f, cursor);
    if |all| == size {
      FollowPage(lines, f, cursor, size);
      CursorOf(lines, f, cursor, size - 1);
      NewestBounds(lines, f, cursor);
      AfterK(all, size - 1);
      TakeAll(all);
    }
  }

  lemma SamePrefix(all: seq<Record>, size: nat, rest: seq<Record>)
    requires size <= |all|
    ensures all[..size] + rest == all <==> rest == all[size..]
  {
    SplitAt(all, size);
    if all[..size] + rest == all { assert rest == (all[..size] + rest)[size..]; }
  }

  // Distinct instants are never split.
  lemma {:induction false} StrictNoSplit(all: seq<Record>, size: nat)
    requires size > 0 && forall i, j :: 0 <= i < j < |all| ==> all[i].ts > all[j].ts
    ensures NoSplit(all, size)
  {
    if |all| > size { StrictNoSplit(all[size..], size); }
  }

  // A concrete loss: two removals of one instant, one record a page.
  lemma SplitLoses(a: Record, b: Record, f: Filter)
    requires a.ts == b.ts > 0 && Matches(f, a) && Matches(f, b)
    ensures Follow([Rec(a), Rec(b)], f, 0, 1) == [b]
  {
    var lines := [Rec(a), Rec(b)];
    assert lines[..1] == [Rec(a)] && [Rec(a)][..0] == [];
    NewestLast([Rec(a)], f, 0);
    NewestLast(lines, f, 0);
    NewestLast([Rec(a)], f, b.ts);
    NewestLast(lines, f, b.ts);
    FollowPage(lines, f, 0, 1);
    ShortFollow(lines, f, b.ts, 1);
  }

  lemma NewestLast(lines: seq<Line>, f: Filter, cursor: int)
    requires lines != []
    ensures var before, last := lines[..|lines| - 1], lines[|lines| - 1];
      Newest(lines, f, cursor) ==
        if Wanted(last, f, cursor) then [last.r] + Newest(before, f, cursor) else Newest(before, f, cursor)
  {
  }

  lemma {:induction false} NonBlankMembers(file: seq<Line>)
    ensures forall l :: l in NonBlank(file) <==> l in file && !l.Blank?
  {
    if file != [] {
      var before, last := file[..|file| - 1], file[|file| - 1];
      NonBlankMembers(before);
      assert file == before + [last];
    }
  }

  lemma StampedSnoc(lines: seq<Line>, last: Line)
    requires Stamped(lines) && (last.Rec? ==> last.r.ts > 0 && forall l :: l in lines && l.Rec? ==> l.r.ts <= last.r.ts)
    ensures Stamped(lines + [last])
  {
  }

  lemma {:induction false} NonBlankStamped(file: seq<Line>)
    requires Stamped(file)
    ensures Stamped(NonBlank(file))
  {
    if file != [] {
      var before, last := file[..|file| - 1], file[|file| - 1];
      NonBlankStamped(before);
      NonBlankMembers(before);
      assert forall l :: l in before && l.Rec? && last.Rec? ==> l.r.ts <= last.r.ts;
      StampedSnoc(NonBlank(before), last);
    }
  }

  // From the first page of an unchanged, readable journal of at most SCAN_CAP
  // non-blank lines: the client gets every matching record of the journal once, in
  // descending time, exactly when no page boundary separates two of one instant.
  lemma PagingIsComplete(file: seq<Line>, f: Filter, pageSize: nat, r: Record)
    requires Stamped(file) && |NonBlank(file)| <= SCAN_CAP && TooLong !in file
    ensures Stamped(LastN(NonBlank(file), SCAN_CAP))
    ensures var got, all := Follow(LastN(NonBlank(file), SCAN_CAP), f, 0, EffectiveSize(pageSize)), Newest(NonBlank(file), f, 0);
      (got == all <==> NoSplit(all, EffectiveSize(pageSize))) &&
      (r in all <==>
         Rec(r) in file && (f.pool == 0 || f.pool == r.pool) && (f.runner == "" || f.runner == r.runner) &&
         (f.reason == "" || f.reason == r.reason) && (f.since == 0 || f.since <= r.ts) && (f.until == 0 || r.ts <= f.until)) &&
      Descending(all)
  {
    NonBlankStamped(file);
    NonBlankMembers(file);
    var lines := LastN(NonBlank(file), SCAN_CAP);
    FollowReturnsAll(lines, f, 0, EffectiveSize(pageSize));
    NewestBounds(lines, f, 0);
    NewestHasAll(lines, f, r);
  }

  lemma {:induction false} NewestHasAll(lines: seq<Line>, f: Filter, r: Record)
    ensures r in Newest(lines, f, 0) <==> Rec(r) in lines && Matches(f, r)
  {
    if lines != [] {
      var before, last := lines[..|lines| - 1], lines[|lines| - 1];
      NewestHasAll(before, f, r);
      assert lines == before + [last];
    }
  }

  // How many requests that client sends.
  function Requests(lines: seq<Line>, f: Filter, cursor: int, size: nat): nat
    requires Stamped(lines) && size > 0
    decreases |Newest(lines, f, cursor)|
  {
    var page := PageOf(lines, f, cursor, size);
    var next := NextCursor(page, size);
    if next == 0 then 1
    else
      CursorOf(lines, f, cursor, size - 1);
      1 + Requests(lines, f, next, size)
  }

  // q is the number of pages of the size, the last one not full, that hold n.
  predicate PagesFor(q: int, size: nat, n: int) {
    (q - 1) * size <= n < q * size
  }

  lemma OneMorePage(q: int, size: nat, n: int)
    requires PagesFor(q, size, n - size)
    ensures PagesFor(q + 1, size, n)
  {
    assert (q - 1) * size == q * size - size;
    assert (q + 1) * size == q * size + size;
  }

  lemma OnePage(size: nat, n: nat)
    requires n < size
    ensures PagesFor(1, size, n)
  {
  }

  // It stops after the first page that is not full: with n matching records, none
  // of them skipped, it sends the unique number of requests q with
  // (q - 1) * size <= n < q * size.
  lemma {:induction false} RequestCount(lines: seq<Line>, f: Filter, cursor: int, size: nat)
    requires Stamped(lines) && size > 0 && NoSplit(Newest(lines, f, cursor), size)
    ensures PagesFor(Requests(lines, f, cursor, size), size, |Newest(lines, f, cursor)|)
    decreases |Newest(lines, f, cursor)|
  {
    var all := Newest(lines, f, cursor);
    if |all| >= size {
      CursorOf(lines, f, cursor, size - 1);
      NewestBounds(lines, f, cursor);
      AfterK(all, size - 1);
      RequestCount(lines, f, all[size - 1].ts, size);
      OneMorePage(Requests(lines, f, all[size - 1].ts, size), size, |all|);
    } else {
      OnePage(size, |all|);
    }
  }
}
