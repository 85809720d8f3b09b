/** Reading the log page by page while it is being written, and merging the pages for display. */
module LogPaging {
  import opened Wrappers
  import opened LogFormat
  import opened LogFiles
  import opened LogStore
  import opened LogRuns
  import H = LogHistory

  // ---- One page ----

  ghost predicate Distinct(rs: seq<LogRecord>) {
    forall i, j :: 0 <= i < j < |rs| ==> rs[i].sequence != rs[j].sequence
  }

  ghost predicate StrictlyDescending(rs: seq<LogRecord>) {
    forall i, j :: 0 <= i < j < |rs| ==> rs[i].sequence > rs[j].sequence
  }

  ghost predicate Increasing(rs: seq<LogRecord>) {
    forall i, j :: 0 <= i < j < |rs| ==> rs[i].sequence < rs[j].sequence
  }

  /** Reading order: the active file first, then archives 1 to 4. */
  function Blocks(s: Slots<H.FileView>, n: nat): seq<LogRecord>
    requires n <= 5
  {
    if n == 0 then [] else Blocks(s, n - 1) + H.Held(s[n - 1])
  }

  /** A torn tail never makes a query fail; only damage would. */
  lemma {:induction false} SoundFilesAreReadable(c: Codec, s: Slots<Bytes>, n: nat)
    requires n <= 5 && H.Sound(View(c, s), false)
    ensures ReadSlots(c, s, n) == Some(Blocks(View(c, s), n))
  {
    if n > 0 {
      SoundFilesAreReadable(c, s, n - 1);
      ViewUpdate(c, s, n - 1, s[n - 1]);
      ViewContents(c, s[n - 1]);
      ReadAgreesWithScan(c, Contents(s[n - 1]));
    }
  }

  lemma {:induction false} AboveIsPrefix(s: Slots<H.FileView>, m: nat, n: nat)
    requires m <= n <= 5
    ensures H.Above(s, n) <= H.Above(s, m)
    decreases n - m
  {
    if m < n {
      AboveIsPrefix(s, m + 1, n);
    }
  }

  lemma {:induction false} HeldPosition(s: Slots<H.FileView>, n: nat, i: nat, x: nat) returns (p: nat)
    requires n <= i < 5 && x < |H.Held(s[i])|
    ensures p < |H.Above(s, n)| && H.Above(s, n)[p] == H.Held(s[i])[x]
    ensures i == n ==> p == |H.Above(s, n + 1)| + x
    decreases i - n
  {
    if i == n {
      p := |H.Above(s, n + 1)| + x;
    } else {
      p := HeldPosition(s, n + 1, i, x);
    }
  }

  /** Everything in a file is newer than everything in the archives behind it. */
  lemma OlderBehind(s: Slots<H.FileView>, i: nat, x: nat, j: nat, y: nat)
    requires i < j < 5 && Increasing(H.Above(s, i)) && x < |H.Held(s[i])| && y < |H.Held(s[j])|
    ensures H.Held(s[j])[y].sequence < H.Held(s[i])[x].sequence
  {
    var older := HeldPosition(s, i + 1, j, y);
    var newer := HeldPosition(s, i, i, x);
    assert H.Above(s, i) == H.Above(s, i + 1) + H.Held(s[i]);
    assert H.Above(s, i)[older] == H.Held(s[j])[y];
  }

  lemma {:induction false} BlockMember(s: Slots<H.FileView>, n: nat, k: nat) returns (i: nat, x: nat)
    requires n <= 5 && k < |Blocks(s, n)|
    ensures i < n && x < |H.Held(s[i])| && Blocks(s, n)[k] == H.Held(s[i])[x]
  {
    var before := |Blocks(s, n - 1)|;
    if k < before {
      i, x := BlockMember(s, n - 1, k);
    } else {
      i, x := n - 1, k - before;
    }
  }

  lemma ArchivesAreIncreasing(s: Slots<H.FileView>, n: nat)
    requires n <= 5 && Increasing(H.Above(s, 0))
    ensures Increasing(H.Above(s, n))
  {
    AboveIsPrefix(s, 0, n);
  }

  lemma NewerBlocksDiffer(s: Slots<H.FileView>, n: nat, k: nat, x: nat)
    requires n < 5 && Increasing(H.Above(s, 0)) && k < |Blocks(s, n)| && x < |H.Held(s[n])|
    ensures Blocks(s, n)[k].sequence != H.Held(s[n])[x].sequence
  {
    var i, y := BlockMember(s, n, k);
    ArchivesAreIncreasing(s, i);
    OlderBehind(s, i, y, n, x);
  }

  /** The two parts have no sequence in common. */
  ghost predicate Apart(a: seq<LogRecord>, b: seq<LogRecord>) {
    forall k, x :: 0 <= k < |a| && 0 <= x < |b| ==> a[k].sequence != b[x].sequence
  }

  ghost predicate FileApart(s: Slots<H.FileView>, n: nat)
    requires n < 5
  {
    Distinct(H.Held(s[n])) && Apart(Blocks(s, n), H.Held(s[n]))
  }

  lemma FilesAreApart(s: Slots<H.FileView>, n: nat)
    requires n < 5 && Increasing(H.Above(s, 0))
    ensures FileApart(s, n)
  {
    var before, here := Blocks(s, n), H.Held(s[n]);
    ArchivesAreIncreasing(s, n);
    FileIsDistinct(s, n);
    forall k, x | 0 <= k < |before| && 0 <= x < |here| ensures before[k].sequence != here[x].sequence {
      NewerBlocksDiffer(s, n, k, x);
    }
  }

  lemma {:induction false} ApartIsDistinct(s: Slots<H.FileView>, n: nat)
    requires n <= 5 && forall i :: 0 <= i < n ==> FileApart(s, i)
    ensures Distinct(Blocks(s, n))
  {
    if n > 0 {
      ApartIsDistinct(s, n - 1);
      assert FileApart(s, n - 1);
      DistinctAppend(Blocks(s, n - 1), H.Held(s[n - 1]));
    }
  }

  lemma BlocksAreDistinct(s: Slots<H.FileView>, n: nat)
    requires n <= 5 && Increasing(H.Above(s, 0))
    ensures Distinct(Blocks(s, n))
  {
    forall i | 0 <= i < n
      ensures FileApart(s, i)
    {
      FilesAreApart(s, i);
    }
    ApartIsDistinct(s, n);
  }

  lemma DistinctAppend(a: seq<LogRecord>, b: seq<LogRecord>)
    requires Distinct(a) && Distinct(b) && Apart(a, b)
    ensures Distinct(a + b)
  {
  }

  lemma FileIsDistinct(s: Slots<H.FileView>, i: nat)
    requires i < 5 && Increasing(H.Above(s, i))
    ensures Distinct(H.Held(s[i]))
  {
    var here, older := H.Held(s[i]), |H.Above(s, i + 1)|;
    assert forall x :: 0 <= x < |here| ==> here[x] == H.Above(s, i)[older + x];
  }

  lemma {:induction false} BlocksHoldEverything(s: Slots<H.FileView>, n: nat, r: LogRecord)
    requires n <= 5
    ensures r in Blocks(s, n) <==> exists i :: 0 <= i < n && r in H.Held(s[i])
  {
    if n > 0 {
      BlocksHoldEverything(s, n - 1, r);
    }
  }

  lemma {:induction false} AboveHoldsEverything(s: Slots<H.FileView>, n: nat, r: LogRecord)
    requires n <= 5
    ensures r in H.Above(s, n) <==> exists i :: n <= i < 5 && r in H.Held(s[i])
    decreases 5 - n
  {
    if n < 5 {
      AboveHoldsEverything(s, n + 1, r);
    }
  }

  lemma {:induction false} RetainKeepsDistinct(q: LogQuery, rs: seq<LogRecord>)
    requires Distinct(rs)
    ensures Distinct(Retain(q, rs))
  {
    if rs != [] {
      assert forall i, j :: 0 <= i < j < |rs| - 1 ==> rs[1..][i] == rs[i + 1] && rs[1..][j] == rs[j + 1];
      RetainKeepsDistinct(q, rs[1..]);
      var rest := Retain(q, rs[1..]);
      forall k | 0 <= k < |rest| ensures rest[k].sequence != rs[0].sequence {
        assert rest[k] in rs[1..];
      }
    }
  }

  lemma {:induction false} InsertKeepsOrder(r: LogRecord, rs: seq<LogRecord>)
    requires StrictlyDescending(rs) && forall k :: 0 <= k < |rs| ==> rs[k].sequence != r.sequence
    ensures StrictlyDescending(InsertDescending(r, rs))
    ensures forall x :: x in InsertDescending(r, rs) <==> x == r || x in rs
  {
    if rs != [] && r.sequence < rs[0].sequence {
      InsertKeepsOrder(r, rs[1..]);
      var rest := InsertDescending(r, rs[1..]);
      forall k | 0 <= k < |rest| ensures rest[k].sequence < rs[0].sequence {
        assert rest[k] == r || rest[k] in rs[1..];
      }
    }
  }

  lemma {:induction false} SortIsStrict(rs: seq<LogRecord>)
    requires Distinct(rs)
    ensures StrictlyDescending(SortDescending(rs))
    ensures forall x :: x in SortDescending(rs) <==> x in rs
  {
    if rs != [] {
      SortIsStrict(rs[1..]);
      var rest := SortDescending(rs[1..]);
      forall k | 0 <= k < |rest| ensures rest[k].sequence != rs[0].sequence {
        assert rest[k] in rs[1..];
      }
      InsertKeepsOrder(rs[0], rest);
    }
  }

  /** What a page promises: the newest matching records, newest first, and all of them when it is short. */
  ghost predicate IsPage(visible: seq<LogRecord>, q: LogQuery, page: seq<LogRecord>) {
    && StrictlyDescending(page) && |page| <= q.limit
    && (forall r :: r in page ==> r in visible && q.Matches(r))
    && (forall r :: r in visible && q.Matches(r) && r !in page ==>
          |page| == q.limit && forall k :: 0 <= k < |page| ==> r.sequence < page[k].sequence)
  }

  lemma TakeIsPage(visible: seq<LogRecord>, q: LogQuery, sorted: seq<LogRecord>)
    requires StrictlyDescending(sorted)
    requires forall r :: r in sorted <==> r in visible && q.Matches(r)
    ensures IsPage(visible, q, Take(sorted, q.limit))
  {
    var page := Take(sorted, q.limit);
    assert forall k :: 0 <= k < |page| ==> sorted[k] in page;
    forall r | r in visible && q.Matches(r) && r !in page
      ensures |page| == q.limit && forall k :: 0 <= k < |page| ==> r.sequence < page[k].sequence
    {
      var i :| 0 <= i < |sorted| && sorted[i] == r;
      assert i >= |page|;
    }
  }

  lemma ConsistentIsIncreasing(h: H.History)
    requires H.Consistent(h) && |h.log| <= U64_MAX
    ensures Increasing(H.Above(h.files, 0))
  {
  }

  /** Every query of a consistent log succeeds. Newest first, its answer lists readable records of the
      asked application and stream from below the cursor; a readable record with those three is listed,
      or the answer is full and all of it is newer. */
  lemma AnswerIsPage(c: Codec, s: State, h: H.History, q: LogQuery)
    requires Matches(c, s, h) && H.Consistent(h) && |h.log| <= U64_MAX
    ensures Answer(c, s.slots, q).Some?
    ensures var page := Answer(c, s.slots, q).value;
            && IsPage(Visible(c, s.slots), q, page)
            && (forall r :: r in page ==>
                  && (q.applicationId.None? || r.applicationId == q.applicationId.value)
                  && (q.stream.None? || r.stream == q.stream.value)
                  && (q.beforeSequence.None? || r.sequence < q.beforeSequence.value))
            && (forall r ::
                  && r in Visible(c, s.slots) && r !in page
                  && (q.applicationId.None? || r.applicationId == q.applicationId.value)
                  && (q.stream.None? || r.stream == q.stream.value)
                  && (q.beforeSequence.None? || r.sequence < q.beforeSequence.value) ==>
                  |page| == q.limit && forall k :: 0 <= k < |page| ==> r.sequence < page[k].sequence)
  {
    ConsistentIsIncreasing(h);
    SoundFilesAreReadable(c, s.slots, 5);
    var all := Blocks(h.files, 5);
    BlocksAreDistinct(h.files, 5);
    RetainKeepsDistinct(q, all);
    SortIsStrict(Retain(q, all));
    forall r ensures r in all <==> r in Visible(c, s.slots) {
      BlocksHoldEverything(h.files, 5, r);
      AboveHoldsEverything(h.files, 0, r);
    }
    TakeIsPage(Visible(c, s.slots), q, SortDescending(Retain(q, all)));
  }

  // ---- Following `nextBeforeSequence` ----

  /** Core's answer names the last sequence of a page; a query for older records passes it back. */
  function Older(q: LogQuery, previous: seq<LogRecord>): LogQuery {
    if previous == [] then q
    else q.(beforeSequence := Some(previous[|previous| - 1].sequence))
  }

  /** The first n pages, joined. */
  function Joined(pages: seq<seq<LogRecord>>, n: nat): seq<LogRecord>
    requires n <= |pages|
  {
    if n == 0 then [] else Joined(pages, n - 1) + pages[n - 1]
  }

  function QueryAt(q: LogQuery, pages: seq<seq<LogRecord>>, k: nat): LogQuery
    requires k < |pages|
  {
    if k == 0 then q else Older(q, pages[k - 1])
  }

  ghost predicate PageAt(vs: seq<seq<LogRecord>>, q: LogQuery, pages: seq<seq<LogRecord>>, k: nat)
    requires k < |vs| == |pages|
  {
    IsPage(vs[k], QueryAt(q, pages, k), pages[k])
  }

  /** Pages read at successive moments, when vs were the readable records. Each but the last has
      records, so it is followed by a query for older ones. */
  ghost predicate IsListing(vs: seq<seq<LogRecord>>, q: LogQuery, pages: seq<seq<LogRecord>>) {
    && |pages| == |vs| > 0
    && (forall k :: 0 <= k < |pages| ==> PageAt(vs, q, pages, k))
    && (forall k :: 0 <= k < |pages| - 1 ==> pages[k] != [])
  }

  lemma DescendingAppend(a: seq<LogRecord>, b: seq<LogRecord>)
    requires StrictlyDescending(a) && StrictlyDescending(b)
    requires a != [] ==> forall x :: 0 <= x < |b| ==> b[x].sequence < a[|a| - 1].sequence
    ensures StrictlyDescending(a + b)
  {
  }

  lemma PageIsOlder(visible: seq<LogRecord>, q: LogQuery, previous: seq<LogRecord>, page: seq<LogRecord>)
    requires IsPage(visible, Older(q, previous), page) && previous != []
    ensures forall x :: 0 <= x < |page| ==> page[x].sequence < previous[|previous| - 1].sequence
  {
    forall x | 0 <= x < |page| ensures page[x].sequence < previous[|previous| - 1].sequence {
      assert page[x] in page;
    }
  }

  /** The pages together are strictly descending, so no record is listed twice. */
  lemma {:induction false} PagesDescend(vs: seq<seq<LogRecord>>, q: LogQuery, pages: seq<seq<LogRecord>>, n: nat)
    requires IsListing(vs, q, pages) && n <= |pages|
    ensures StrictlyDescending(Joined(pages, n))
    ensures n > 0 && pages[n - 1] != [] ==>
              Joined(pages, n) != [] &&
              Joined(pages, n)[|Joined(pages, n)| - 1] == pages[n - 1][|pages[n - 1]| - 1]
  {
    if n > 0 {
      PagesDescend(vs, q, pages, n - 1);
      assert PageAt(vs, q, pages, n - 1);
      if n > 1 {
        assert pages[n - 2] != [];
        PageIsOlder(vs[n - 1], q, pages[n - 2], pages[n - 1]);
      }
      DescendingAppend(Joined(pages, n - 1), pages[n - 1]);
    }
  }

  lemma {:induction false} NonemptyPagesCount(pages: seq<seq<LogRecord>>, n: nat)
    requires n <= |pages| && forall k :: 0 <= k < n ==> pages[k] != []
    ensures |Joined(pages, n)| >= n
    ensures n > 0 ==> Joined(pages, n)[0] == pages[0][0]
  {
    if n > 0 {
      NonemptyPagesCount(pages, n - 1);
    }
  }

  lemma PageStep(visible: seq<LogRecord>, now: LogQuery, q: LogQuery, page: seq<LogRecord>, r: LogRecord)
    requires IsPage(visible, now, page)
    requires r in visible && now.Matches(r) && q.Matches(r)
    ensures r in page || (page != [] && Older(q, page).Matches(r)) || now.limit == 0
  {
    if r !in page && now.limit > 0 {
      assert |page| == now.limit;
      assert r.sequence < page[|page| - 1].sequence;
    }
  }

  /** After k pages, a record that was readable all along has been listed or is still ahead. */
  lemma {:induction false} ListedOrAhead(
    vs: seq<seq<LogRecord>>, q: LogQuery, pages: seq<seq<LogRecord>>, r: LogRecord, k: nat)
    requires IsListing(vs, q, pages) && k < |pages| && q.Matches(r) && q.limit > 0
    requires forall i :: 0 <= i < |vs| ==> r in vs[i]
    ensures r in Joined(pages, k) || QueryAt(q, pages, k).Matches(r)
  {
    if k > 0 {
      ListedOrAhead(vs, q, pages, r, k - 1);
      assert PageAt(vs, q, pages, k - 1);
      if r !in Joined(pages, k - 1) {
        PageStep(vs[k - 1], QueryAt(q, pages, k - 1), q, pages[k - 1], r);
      }
    }
  }

  /** Reading until an empty page lists every matching record that was readable all along. */
  lemma LastingRecordIsListed(vs: seq<seq<LogRecord>>, q: LogQuery, pages: seq<seq<LogRecord>>, r: LogRecord)
    requires IsListing(vs, q, pages) && pages[|pages| - 1] == [] && q.Matches(r) && q.limit > 0
    requires forall i :: 0 <= i < |vs| ==> r in vs[i]
    ensures r in Joined(pages, |pages|)
  {
    var last := |pages| - 1;
    ListedOrAhead(vs, q, pages, r, last);
    assert PageAt(vs, q, pages, last);
  }

  lemma {:induction false} ListedWasReadable(
    vs: seq<seq<LogRecord>>, q: LogQuery, pages: seq<seq<LogRecord>>, n: nat, r: LogRecord)
    returns (k: nat)
    requires IsListing(vs, q, pages) && n <= |pages| && r in Joined(pages, n)
    ensures k < n && r in pages[k] && r in vs[k] && q.limit > 0 && q.Matches(r)
  {
    if r in Joined(pages, n - 1) {
      k := ListedWasReadable(vs, q, pages, n - 1, r);
    } else {
      k := n - 1;
      assert PageAt(vs, q, pages, k);
      CursorsDescend(vs, q, pages, k, r);
    }
  }

  /** A later query asks for no more than the first. */
  lemma {:induction false} CursorsDescend(
    vs: seq<seq<LogRecord>>, q: LogQuery, pages: seq<seq<LogRecord>>, k: nat, r: LogRecord)
    requires IsListing(vs, q, pages) && k < |pages| && QueryAt(q, pages, k).Matches(r)
    ensures q.Matches(r)
  {
    if k > 0 {
      var previous := pages[k - 1];
      var last := previous[|previous| - 1];
      assert PageAt(vs, q, pages, k - 1) && last in previous;
      CursorsDescend(vs, q, pages, k - 1, last);
    }
  }

  lemma {:induction false} DescendingIsShort(rs: seq<LogRecord>, x: nat)
    requires StrictlyDescending(rs) && x < |rs|
    ensures rs[0].sequence >= rs[x].sequence + x
  {
    if x > 0 {
      assert rs[x - 1].sequence > rs[x].sequence;
      DescendingIsShort(rs, x - 1);
    }
  }

  /** Sequences start at 1 and were at most `bound` when the listing began. */
  ghost predicate Numbered(vs: seq<seq<LogRecord>>, bound: nat)
    requires |vs| > 0
  {
    && (forall i, r: LogRecord :: 0 <= i < |vs| && r in vs[i] ==> r.sequence >= 1)
    && (forall r :: r in vs[0] ==> r.sequence <= bound)
  }

  /** Each page with records lists at least one, and the records listed are bounded by the newest
      sequence at the start. */
  lemma ListingIsShort(vs: seq<seq<LogRecord>>, q: LogQuery, pages: seq<seq<LogRecord>>, n: nat, bound: nat)
    requires IsListing(vs, q, pages) && n <= |pages| && forall k :: 0 <= k < n ==> pages[k] != []
    requires Numbered(vs, bound)
    ensures n <= |Joined(pages, n)| <= bound
  {
    var listed := Joined(pages, n);
    NonemptyPagesCount(pages, n);
    if n > 0 {
      PagesDescend(vs, q, pages, n);
      assert PageAt(vs, q, pages, 0) && pages[0][0] in pages[0];
      var end := listed[|listed| - 1];
      var k := ListedWasReadable(vs, q, pages, n, end);
      DescendingIsShort(listed, |listed| - 1);
    }
  }

  lemma ListingEnds(vs: seq<seq<LogRecord>>, q: LogQuery, pages: seq<seq<LogRecord>>, bound: nat)
    requires IsListing(vs, q, pages) && Numbered(vs, bound)
    ensures |pages| - 1 <= |Joined(pages, |pages|)| <= bound
    ensures |pages| > bound ==> pages[|pages| - 1] == []
  {
    var n := |pages|;
    if pages[n - 1] == [] {
      assert Joined(pages, n) == Joined(pages, n - 1);
      ListingIsShort(vs, q, pages, n - 1, bound);
    } else {
      ListingIsShort(vs, q, pages, n, bound);
    }
  }

  /** A record readable at the first and the last moment is readable in between. */
  lemma StaysVisible(h0: H.History, h: H.History, h1: H.History, r: LogRecord)
    requires H.Consistent(h0) && H.Consistent(h) && H.Consistent(h1) && |h1.log| <= U64_MAX
    requires H.Extends(h0, h) && H.Extends(h, h1)
    requires r in H.Above(h0.files, 0) && r in H.Above(h1.files, 0)
    ensures r in H.Above(h.files, 0)
  {
    var at := LogPosition(h0, r);
    var last := LogPosition(h1, r);
    InSuffix(h0.log, h.log, h.evicted, at);
  }

  lemma InSuffix(before: seq<LogRecord>, log: seq<LogRecord>, from: nat, at: nat)
    requires before <= log && from <= at < |before|
    ensures before[at] in log[from..]
  {
    assert log[from..][at - from] == before[at];
  }

  lemma LogPosition(h: H.History, r: LogRecord) returns (at: nat)
    requires H.Consistent(h) && |h.log| <= U64_MAX && r in H.Above(h.files, 0)
    ensures h.evicted <= at < |h.log| && h.log[at] == r && r.sequence == at + 1
  {
    var v := h.log[h.evicted..];
    var i :| 0 <= i < |v| && v[i] == r;
    at := h.evicted + i;
  }

  // ---- Pages of a run ----

  /** The moments of a run at which pages are read. */
  ghost predicate Moments(times: seq<nat>, end: nat) {
    (forall k :: 0 <= k < |times| ==> times[k] <= end) &&
    (forall j, k :: 0 <= j <= k < |times| ==> times[j] <= times[k])
  }

  /** The answers the store gives at those moments, each asked for what is older than the one before. */
  ghost predicate AnswersAt(c: Codec, ss: seq<State>, times: seq<nat>, q: LogQuery, pages: seq<seq<LogRecord>>) {
    && |pages| == |times|
    && forall k :: 0 <= k < |times| ==>
         times[k] < |ss| && Answer(c, ss[times[k]].slots, QueryAt(q, pages, k)) == Some(pages[k])
  }

  /** Main theorem on paging: reading the bytes on disk page by page, while appends, rotations,
      crashes and restarts go on. No record is listed twice and newer ones come first; each one listed
      was readable when its page was read and is of the asked application and stream; each page but an
      empty last one takes one of at most times[0] records, so an empty page comes within times[0] + 1
      pages; and once it has come, every such record readable at the first and the last moment is listed. */
  lemma PagingDuringARun(
    c: Codec, max: nat, ss: seq<State>, events: seq<Event>, times: seq<nat>, q: LogQuery, pages: seq<seq<LogRecord>>)
    requires c.Lawful() && IsRun(c, max, ss, events) && ss[0] == EMPTY && |events| < U64_MAX
    requires times != [] && Moments(times, |events|) && AnswersAt(c, ss, times, q, pages)
    requires q.limit > 0
    requires forall k :: 0 <= k < |pages| - 1 ==> pages[k] != []
    ensures StrictlyDescending(Joined(pages, |pages|))
    ensures |pages| - 1 <= |Joined(pages, |pages|)| <= times[0]
    ensures |pages| > times[0] ==> pages[|pages| - 1] == []
    ensures forall r :: r in Joined(pages, |pages|) ==>
              && (exists k :: 0 <= k < |times| && r in Visible(c, ss[times[k]].slots) && r in pages[k])
              && (q.applicationId.None? || r.applicationId == q.applicationId.value)
              && (q.stream.None? || r.stream == q.stream.value)
              && (q.beforeSequence.None? || r.sequence < q.beforeSequence.value)
    ensures pages[|pages| - 1] == [] ==>
              forall r ::
                && r in Visible(c, ss[times[0]].slots) && r in Visible(c, ss[times[|times| - 1]].slots)
                && (q.applicationId.None? || r.applicationId == q.applicationId.value)
                && (q.stream.None? || r.stream == q.stream.value)
                && (q.beforeSequence.None? || r.sequence < q.beforeSequence.value)
                ==> r in Joined(pages, |pages|)
  {
    PagesAreBounded(c, max, ss, events, times, q, pages);
    forall r | r in Joined(pages, |pages|)
      ensures q.Matches(r) && exists k :: 0 <= k < |times| && r in Visible(c, ss[times[k]].slots) && r in pages[k]
    {
      var k := ListedWasAskedFor(c, max, ss, events, times, q, pages, r);
    }
    forall r | && pages[|pages| - 1] == [] && q.Matches(r)
               && r in Visible(c, ss[times[0]].slots) && r in Visible(c, ss[times[|times| - 1]].slots)
      ensures r in Joined(pages, |pages|)
    {
      RetainedIsListed(c, max, ss, events, times, q, pages, r);
    }
  }

  lemma PagesAreBounded(
    c: Codec, max: nat, ss: seq<State>, events: seq<Event>, times: seq<nat>, q: LogQuery, pages: seq<seq<LogRecord>>)
    requires c.Lawful() && IsRun(c, max, ss, events) && ss[0] == EMPTY && |events| < U64_MAX
    requires times != [] && Moments(times, |events|) && AnswersAt(c, ss, times, q, pages)
    requires forall k :: 0 <= k < |pages| - 1 ==> pages[k] != []
    ensures StrictlyDescending(Joined(pages, |pages|))
    ensures |pages| - 1 <= |Joined(pages, |pages|)| <= times[0]
    ensures |pages| > times[0] ==> pages[|pages| - 1] == []
  {
    var hs, vs := HistoriesAt(c, max, ss, events, times, q, pages);
    PagesDescend(vs, q, pages, |pages|);
    ReadableIsNumbered(hs, vs, times[0]);
    ListingEnds(vs, q, pages, times[0]);
  }

  lemma ListedWasAskedFor(
    c: Codec, max: nat, ss: seq<State>, events: seq<Event>, times: seq<nat>, q: LogQuery, pages: seq<seq<LogRecord>>,
    r: LogRecord)
    returns (k: nat)
    requires c.Lawful() && IsRun(c, max, ss, events) && ss[0] == EMPTY && |events| < U64_MAX
    requires times != [] && Moments(times, |events|) && AnswersAt(c, ss, times, q, pages)
    requires forall k :: 0 <= k < |pages| - 1 ==> pages[k] != []
    requires r in Joined(pages, |pages|)
    ensures k < |times| && r in Visible(c, ss[times[k]].slots) && r in pages[k] && q.Matches(r)
  {
    var hs, vs := HistoriesAt(c, max, ss, events, times, q, pages);
    k := ListedWasReadable(vs, q, pages, |pages|, r);
    assert vs[k] == Visible(c, ss[times[k]].slots);
  }

  lemma RetainedIsListed(
    c: Codec, max: nat, ss: seq<State>, events: seq<Event>, times: seq<nat>, q: LogQuery, pages: seq<seq<LogRecord>>,
    r: LogRecord)
    requires c.Lawful() && IsRun(c, max, ss, events) && ss[0] == EMPTY && |events| < U64_MAX
    requires times != [] && Moments(times, |events|) && AnswersAt(c, ss, times, q, pages)
    requires forall k :: 0 <= k < |pages| - 1 ==> pages[k] != []
    requires pages[|pages| - 1] == [] && q.limit > 0 && q.Matches(r)
    requires r in Visible(c, ss[times[0]].slots) && r in Visible(c, ss[times[|times| - 1]].slots)
    ensures r in Joined(pages, |pages|)
  {
    var hs, vs := HistoriesAt(c, max, ss, events, times, q, pages);
    LastingRecordsAreListed(hs, vs, q, pages);
    assert r in vs[0] && r in vs[|vs| - 1];
  }

  /** Successive histories of one run, and what is readable in each. */
  ghost predicate Snapshots(hs: seq<H.History>, vs: seq<seq<LogRecord>>) {
    && |hs| == |vs| > 0
    && (forall k :: 0 <= k < |hs| ==> H.Consistent(hs[k]) && |hs[k].log| <= U64_MAX && vs[k] == H.Above(hs[k].files, 0))
    && (forall j, k :: 0 <= j <= k < |hs| ==> H.Extends(hs[j], hs[k]))
  }

  lemma LastingRecordsAreListed(
    hs: seq<H.History>, vs: seq<seq<LogRecord>>, q: LogQuery, pages: seq<seq<LogRecord>>)
    requires Snapshots(hs, vs) && IsListing(vs, q, pages) && pages[|pages| - 1] == [] && q.limit > 0
    ensures forall r :: r in vs[0] && r in vs[|vs| - 1] && q.Matches(r) ==> r in Joined(pages, |pages|)
  {
    forall r | r in vs[0] && r in vs[|vs| - 1] && q.Matches(r) ensures r in Joined(pages, |pages|) {
      forall i | 0 <= i < |vs| ensures r in vs[i] {
        StaysVisible(hs[0], hs[i], hs[|hs| - 1], r);
      }
      LastingRecordIsListed(vs, q, pages, r);
    }
  }

  lemma ReadableIsNumbered(hs: seq<H.History>, vs: seq<seq<LogRecord>>, bound: nat)
    requires Snapshots(hs, vs) && |hs[0].log| <= bound
    ensures Numbered(vs, bound)
  {
    forall i, r: LogRecord | 0 <= i < |vs| && r in vs[i]
      ensures r.sequence >= 1 && (i == 0 ==> r.sequence <= bound)
    {
      var at := LogPosition(hs[i], r);
    }
  }

  /** The k-th history and what is readable in it describe the disk at that moment. */
  ghost predicate Shows(
    c: Codec, ss: seq<State>, times: seq<nat>, hs: seq<H.History>, vs: seq<seq<LogRecord>>, k: nat)
  {
    && k < |times| == |hs| == |vs| && times[k] < |ss| && |hs[k].log| <= times[k]
    && Matches(c, ss[times[k]], hs[k]) && vs[k] == Visible(c, ss[times[k]].slots)
  }

  lemma SnapshotsAt(c: Codec, max: nat, ss: seq<State>, events: seq<Event>, times: seq<nat>)
    returns (hs: seq<H.History>, vs: seq<seq<LogRecord>>)
    requires c.Lawful() && IsRun(c, max, ss, events) && ss[0] == EMPTY && |events| < U64_MAX
    requires times != [] && Moments(times, |events|)
    ensures Snapshots(hs, vs) && |hs| == |times| && forall k :: 0 <= k < |times| ==> Shows(c, ss, times, hs, vs, k)
  {
    var all, steps := RunIsExplained(c, max, ss, events, |events|);
    hs := seq(|times|, k requires 0 <= k < |times| => all[times[k]]);
    vs := seq(|times|, k requires 0 <= k < |times| => Visible(c, ss[times[k]].slots));
    forall k | 0 <= k < |times|
      ensures H.Consistent(hs[k]) && Shows(c, ss, times, hs, vs, k)
    {
      assert Explained(c, ss[times[k]], all[times[k]], times[k]);
    }
    forall j, k | 0 <= j <= k < |times| ensures H.Extends(hs[j], hs[k]) {
      H.RunExtends(all, steps, times[j], times[k]);
    }
  }

  lemma ListingOf(
    c: Codec, ss: seq<State>, times: seq<nat>, q: LogQuery, pages: seq<seq<LogRecord>>, hs: seq<H.History>,
    vs: seq<seq<LogRecord>>)
    requires times != [] && AnswersAt(c, ss, times, q, pages) && Snapshots(hs, vs) && |hs| == |times|
    requires forall k :: 0 <= k < |times| ==> Shows(c, ss, times, hs, vs, k)
    requires forall k :: 0 <= k < |pages| - 1 ==> pages[k] != []
    ensures IsListing(vs, q, pages)
  {
    forall k | 0 <= k < |pages|
      ensures PageAt(vs, q, pages, k)
    {
      assert Shows(c, ss, times, hs, vs, k);
      AnswerIsPage(c, ss[times[k]], hs[k], QueryAt(q, pages, k));
    }
  }

  lemma HistoriesAt(
    c: Codec, max: nat, ss: seq<State>, events: seq<Event>, times: seq<nat>, q: LogQuery, pages: seq<seq<LogRecord>>)
    returns (hs: seq<H.History>, vs: seq<seq<LogRecord>>)
    requires c.Lawful() && IsRun(c, max, ss, events) && ss[0] == EMPTY && |events| < U64_MAX
    requires times != [] && Moments(times, |events|) && AnswersAt(c, ss, times, q, pages)
    requires forall k :: 0 <= k < |pages| - 1 ==> pages[k] != []
    ensures Snapshots(hs, vs) && IsListing(vs, q, pages) && |hs[0].log| <= times[0]
    ensures |vs| == |times| && forall k :: 0 <= k < |times| ==> vs[k] == Visible(c, ss[times[k]].slots)
  {
    hs, vs := SnapshotsAt(c, max, ss, events, times);
    ListingOf(c, ss, times, q, pages, hs, vs);
    forall k | 0 <= k < |times|
      ensures vs[k] == Visible(c, ss[times[k]].slots) && (k == 0 ==> |hs[0].log| <= times[0])
    {
      assert Shows(c, ss, times, hs, vs, k);
    }
  }
}
