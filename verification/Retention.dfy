/** The retention pass: it soft-deletes expired rows while paging the very listing it shrinks. */
module Retention {
  import opened Wrappers
  import opened Repository
  import opened PageWalk
  import opened Sequences

  const EVERYTHING: map<string, Value> := map[]

  // The clock reading each row is erased at: no row is erased twice, so its id names the reading.
  type Stamps = string -> real

  predicate Expired(m: Model, threshold: real) {
    m.updatedAt < threshold
  }

  function Active(docs: seq<Model>): seq<Model> {
    Select(docs, EVERYTHING)
  }

  function ExpiredIds(rows: seq<Model>, threshold: real): set<string> {
    set m | m in rows && Expired(m, threshold) :: m.id
  }

  // Every active row whose id is listed becomes a tombstone; everything else stays in place.
  function Retire(docs: seq<Model>, ids: set<string>, at: Stamps): (r: seq<Model>)
    ensures |r| == |docs|
    ensures forall i :: 0 <= i < |docs| ==>
      r[i] == if docs[i].active && docs[i].id in ids then docs[i].Deactivated(at(docs[i].id), None) else docs[i]
  {
    seq(|docs|, i requires 0 <= i < |docs| =>
      if docs[i].active && docs[i].id in ids then docs[i].Deactivated(at(docs[i].id), None) else docs[i])
  }

  lemma {:induction false} ActiveAfterRetire(docs: seq<Model>, ids: set<string>, at: Stamps)
    ensures |Active(Retire(docs, ids, at))| <= |Active(docs)|
    ensures forall m :: m in Active(Retire(docs, ids, at)) <==> m in Active(docs) && m.id !in ids
  {
    if docs != [] {
      ActiveAfterRetire(docs[1..], ids, at);
      assert Retire(docs, ids, at)[1..] == Retire(docs[1..], ids, at);
    }
  }

  function PageAt(docs: seq<Model>, p: PageNumber): Page {
    ListingOf(docs, EVERYTHING)(p)
  }

  // The documents once page p has been read and its expired rows erased.
  function AfterPage(docs: seq<Model>, threshold: real, at: Stamps, p: PageNumber): seq<Model> {
    Retire(docs, ExpiredIds(PageAt(docs, p).items, threshold), at)
  }

  lemma PageStep(docs: seq<Model>, threshold: real, at: Stamps, p: PageNumber)
    ensures |Active(AfterPage(docs, threshold, at, p))| <= |Active(docs)|
    ensures LastPage(PageAt(docs, p)) <==> p * MAX_PAGE_SIZE >= |Active(docs)|
  {
    ActiveAfterRetire(docs, ExpiredIds(PageAt(docs, p).items, threshold), at);
    LastPageOfListing(docs, EVERYTHING, p);
  }

  // What a pass from page p on leaves behind: each page is read after the earlier erasures.
  function Pass(docs: seq<Model>, threshold: real, at: Stamps, p: PageNumber): (r: seq<Model>)
    decreases |Active(docs)| - p * MAX_PAGE_SIZE
  {
    PageStep(docs, threshold, at, p);
    var docs' := AfterPage(docs, threshold, at, p);
    if LastPage(PageAt(docs, p)) then docs' else Pass(docs', threshold, at, p + 1)
  }

  lemma PassGoesOn(docs: seq<Model>, threshold: real, at: Stamps, p: PageNumber)
    ensures Pass(docs, threshold, at, p) ==
      if LastPage(PageAt(docs, p)) then AfterPage(docs, threshold, at, p)
      else Pass(AfterPage(docs, threshold, at, p), threshold, at, p + 1)
  {
  }

  // ---------- What one pass does ----------

  // Every row is as it was, or was active and expired and is now a tombstone.
  ghost predicate Erodes(docs: seq<Model>, after: seq<Model>, threshold: real, at: Stamps) {
    |after| == |docs| && forall i :: 0 <= i < |docs| ==> RowErodes(docs[i], after[i], threshold, at)
  }

  predicate RowErodes(m: Model, m': Model, threshold: real, at: Stamps) {
    m' == m || (m.active && Expired(m, threshold) && m' == m.Deactivated(at(m.id), None))
  }

  lemma {:induction false} LookupAt(docs: seq<Model>, i: nat)
    requires WellKeyed(docs) && i < |docs|
    ensures Lookup(docs, docs[i].id) == Some(docs[i])
  {
    if i > 0 { LookupAt(docs[1..], i - 1); }
  }

  lemma ActiveHasId(docs: seq<Model>, m: Model, i: nat)
    requires WellKeyed(docs) && m in Active(docs) && i < |docs| && docs[i].id == m.id
    ensures docs[i] == m
  {
    SelectMembers(docs, EVERYTHING, m);
    var j :| 0 <= j < |docs| && docs[j] == m;
  }

  lemma PageErodes(docs: seq<Model>, threshold: real, at: Stamps, p: PageNumber)
    requires WellKeyed(docs)
    ensures Erodes(docs, AfterPage(docs, threshold, at, p), threshold, at)
    ensures WellKeyed(AfterPage(docs, threshold, at, p))
  {
    var items := PageAt(docs, p).items;
    forall i | 0 <= i < |docs| && docs[i].active && docs[i].id in ExpiredIds(items, threshold)
      ensures Expired(docs[i], threshold)
    {
      var m :| m in items && Expired(m, threshold) && m.id == docs[i].id;
      ActiveHasId(docs, m, i);
    }
    var after := AfterPage(docs, threshold, at, p);
    forall i, j | 0 <= i < j < |after| ensures after[i].id != after[j].id {
      assert docs[i].id != docs[j].id;
    }
  }

  lemma ErodesIsTransitive(a: seq<Model>, b: seq<Model>, c: seq<Model>, threshold: real, at: Stamps)
    requires Erodes(a, b, threshold, at) && Erodes(b, c, threshold, at)
    ensures Erodes(a, c, threshold, at)
  {
    forall i | 0 <= i < |a| ensures RowErodes(a[i], c[i], threshold, at) {
      assert RowErodes(a[i], b[i], threshold, at) && RowErodes(b[i], c[i], threshold, at);
    }
  }

  /** A pass never deactivates an unexpired row and never touches anything else. */
  lemma {:induction false} PassOnlyRetiresExpired(docs: seq<Model>, threshold: real, at: Stamps, p: PageNumber)
    requires WellKeyed(docs)
    ensures Erodes(docs, Pass(docs, threshold, at, p), threshold, at)
    ensures WellKeyed(Pass(docs, threshold, at, p))
    decreases |Active(docs)| - p * MAX_PAGE_SIZE
  {
    var docs' := AfterPage(docs, threshold, at, p);
    PageErodes(docs, threshold, at, p);
    PageStep(docs, threshold, at, p);
    if !LastPage(PageAt(docs, p)) {
      PassOnlyRetiresExpired(docs', threshold, at, p + 1);
      ErodesIsTransitive(docs, docs', Pass(docs', threshold, at, p + 1), threshold, at);
    }
  }

  lemma {:induction false} MissingStaysMissing(
    docs: seq<Model>, after: seq<Model>, threshold: real, at: Stamps, id: string)
    requires Erodes(docs, after, threshold, at) && GetDoc(docs, id).None?
    ensures GetDoc(after, id).None?
  {
    if docs != [] {
      assert RowErodes(docs[0], after[0], threshold, at);
      if docs[0].id != id {
        assert GetDoc(docs[1..], id).None?;
        forall i | 0 <= i < |docs[1..]| ensures RowErodes(docs[1..][i], after[1..][i], threshold, at) {
          assert RowErodes(docs[i + 1], after[i + 1], threshold, at);
        }
        MissingStaysMissing(docs[1..], after[1..], threshold, at, id);
      }
    }
  }

  lemma {:induction false} RetiredIsMissing(docs: seq<Model>, ids: set<string>, at: Stamps, id: string)
    requires id in ids
    ensures GetDoc(Retire(docs, ids, at), id).None?
  {
    if docs != [] {
      RetiredIsMissing(docs[1..], ids, at, id);
      assert Retire(docs, ids, at)[1..] == Retire(docs[1..], ids, at);
    }
  }

  // A row erased on this page reads as missing when the pass ends.
  lemma ErasedByPassEnd(docs: seq<Model>, threshold: real, at: Stamps, p: PageNumber, id: string)
    requires WellKeyed(docs) && id in ExpiredIds(PageAt(docs, p).items, threshold)
    ensures GetDoc(Pass(docs, threshold, at, p), id).None?
  {
    hide Pass, Select, Retire, PageAt, ExpiredIds, Erodes, WellKeyed;
    var docs' := AfterPage(docs, threshold, at, p);
    PassGoesOn(docs, threshold, at, p);
    RetiredIsMissing(docs, ExpiredIds(PageAt(docs, p).items, threshold), at, id);
    if !LastPage(PageAt(docs, p)) {
      PageErodes(docs, threshold, at, p);
      PassOnlyRetiresExpired(docs', threshold, at, p + 1);
      MissingStaysMissing(docs', Pass(docs', threshold, at, p + 1), threshold, at, id);
    }
  }

  ghost predicate NoneExpired(rows: seq<Model>, threshold: real) {
    forall m :: m in rows ==> !Expired(m, threshold)
  }

  lemma NothingToErase(docs: seq<Model>, threshold: real, at: Stamps, p: PageNumber, k: nat)
    requires p * MAX_PAGE_SIZE <= k <= |Active(docs)| && NoneExpired(Active(docs)[..k], threshold)
    ensures AfterPage(docs, threshold, at, p) == docs
  {
    var items := PageAt(docs, p).items;
    forall m | m in items ensures !Expired(m, threshold) {
      assert m in Active(docs)[..k];
    }
    assert ExpiredIds(items, threshold) == {};
  }

  lemma OnThisPage(docs: seq<Model>, p: PageNumber, j: nat)
    requires (p - 1) * MAX_PAGE_SIZE <= j < |Active(docs)| && j < p * MAX_PAGE_SIZE
    ensures Active(docs)[j] in PageAt(docs, p).items
  {
    assert Active(docs)[j] == PageAt(docs, p).items[j - (p - 1) * MAX_PAGE_SIZE];
  }

  /** Progress: until the pass reads the first expired row (listing position k) nothing is erased,
      so pages before it are exact and the page holding it is read in full.  Every expired row up to
      the end of that page is erased. */
  lemma {:induction false} PassErasesFirstExpired(
    docs: seq<Model>, threshold: real, at: Stamps, p: PageNumber, k: nat, j: nat)
    requires WellKeyed(docs)
    requires (p - 1) * MAX_PAGE_SIZE <= k <= j < |Active(docs)| && j < (k / MAX_PAGE_SIZE + 1) * MAX_PAGE_SIZE
    requires NoneExpired(Active(docs)[..k], threshold) && Expired(Active(docs)[j], threshold)
    ensures GetDoc(Pass(docs, threshold, at, p), Active(docs)[j].id).None?
    decreases |Active(docs)| - p * MAX_PAGE_SIZE
  {
    hide Pass, AfterPage, PageAt;
    var rows := Active(docs);
    PageStep(docs, threshold, at, p);
    if k < p * MAX_PAGE_SIZE {
      OnThisPage(docs, p, j);
      ErasedByPassEnd(docs, threshold, at, p, rows[j].id);
    } else {
      NothingToErase(docs, threshold, at, p, k);
      PassGoesOn(docs, threshold, at, p);
      PassErasesFirstExpired(docs, threshold, at, p + 1, k, j);
    }
  }

  // ---------- Counting ----------

  function ExpiredCount(rows: seq<Model>, threshold: real): nat {
    if rows == [] then 0
    else (if rows[0].active && Expired(rows[0], threshold) then 1 else 0) + ExpiredCount(rows[1..], threshold)
  }

  /** When only expired rows were deactivated, the expired active rows and the active rows drop by
      the same amount. */
  lemma {:induction false} CountsDropTogether(docs: seq<Model>, after: seq<Model>, threshold: real, at: Stamps)
    requires Erodes(docs, after, threshold, at)
    ensures ExpiredCount(after, threshold) <= ExpiredCount(docs, threshold)
    ensures |Active(docs)| - |Active(after)| == ExpiredCount(docs, threshold) - ExpiredCount(after, threshold)
    ensures ExpiredCount(after, threshold) == ExpiredCount(docs, threshold) ==> after == docs
  {
    if docs != [] {
      assert RowErodes(docs[0], after[0], threshold, at);
      forall i | 0 <= i < |docs[1..]| ensures RowErodes(docs[1..][i], after[1..][i], threshold, at) {
        assert RowErodes(docs[i + 1], after[i + 1], threshold, at);
      }
      CountsDropTogether(docs[1..], after[1..], threshold, at);
    }
  }

  lemma {:induction false} CountIsZeroIff(docs: seq<Model>, threshold: real)
    ensures ExpiredCount(docs, threshold) == 0 <==> NoneExpired(Active(docs), threshold)
  {
    if docs != [] {
      CountIsZeroIff(docs[1..], threshold);
      assert docs[0].active ==> docs[0].Matches(EVERYTHING);
    }
  }

  lemma {:induction false} FirstExpired(rows: seq<Model>, threshold: real) returns (k: nat)
    requires !NoneExpired(rows, threshold)
    ensures k < |rows| && Expired(rows[k], threshold) && NoneExpired(rows[..k], threshold)
  {
    if Expired(rows[0], threshold) {
      k := 0;
    } else {
      assert !NoneExpired(rows[1..], threshold);
      var j := FirstExpired(rows[1..], threshold);
      k := j + 1;
      assert rows[..k] == [rows[0]] + rows[1..][..j];
    }
  }

  /** MAIN: if any active row is past its TTL, one pass leaves strictly fewer such rows. */
  lemma PassMakesProgress(docs: seq<Model>, threshold: real, at: Stamps)
    requires WellKeyed(docs)
    ensures var after := Pass(docs, threshold, at, MIN_PAGE);
      if ExpiredCount(docs, threshold) == 0 then after == docs
      else ExpiredCount(after, threshold) < ExpiredCount(docs, threshold)
  {
    var after := Pass(docs, threshold, at, MIN_PAGE);
    PassOnlyRetiresExpired(docs, threshold, at, MIN_PAGE);
    CountsDropTogether(docs, after, threshold, at);
    CountIsZeroIff(docs, threshold);
    if ExpiredCount(docs, threshold) > 0 {
      var k := FirstExpired(Active(docs), threshold);
      PassErasesFirstExpired(docs, threshold, at, MIN_PAGE, k, k);
      ActiveIsFound(docs, k);
    }
  }

  lemma ActiveIsFound(docs: seq<Model>, k: nat)
    requires WellKeyed(docs) && k < |Active(docs)|
    ensures GetDoc(docs, Active(docs)[k].id) == Some(Active(docs)[k])
  {
    var m := Active(docs)[k];
    assert m in Active(docs);
    SelectMembers(docs, EVERYTHING, m);
    var i :| 0 <= i < |docs| && docs[i] == m;
    LookupAt(docs, i);
  }

  function Passes(docs: seq<Model>, threshold: real, at: Stamps, n: nat): seq<Model>
    decreases n
  {
    if n == 0 then docs else Passes(Pass(docs, threshold, at, MIN_PAGE), threshold, at, n - 1)
  }

  /** MAIN: repeated passes at one cutoff leave no active row past its TTL, after at most as many
      passes as there were such rows. */
  lemma {:induction false} PassesConverge(docs: seq<Model>, threshold: real, at: Stamps, n: nat)
    requires WellKeyed(docs) && n >= ExpiredCount(docs, threshold)
    ensures NoneExpired(Active(Passes(docs, threshold, at, n)), threshold)
    decreases n
  {
    if n == 0 {
      CountIsZeroIff(docs, threshold);
    } else {
      PassMakesProgress(docs, threshold, at);
      PassOnlyRetiresExpired(docs, threshold, at, MIN_PAGE);
      PassesConverge(Pass(docs, threshold, at, MIN_PAGE), threshold, at, n - 1);
    }
  }

  // ---------- Exactly what one pass leaves ----------

  function Kept(rows: seq<Model>, threshold: real): (r: seq<Model>)
    ensures |r| <= |rows|
  {
    if rows == [] then []
    else (if Expired(rows[0], threshold) then [] else [rows[0]]) + Kept(rows[1..], threshold)
  }

  // How many rows move up past the walker once the first page is erased.
  function Skipped(rows: seq<Model>, threshold: real): (n: nat)
    requires |rows| > MAX_PAGE_SIZE
    ensures MAX_PAGE_SIZE + n <= |rows|
  {
    var erased := MAX_PAGE_SIZE - |Kept(rows[..MAX_PAGE_SIZE], threshold)|;
    if MAX_PAGE_SIZE + erased <= |rows| then erased else |rows| - MAX_PAGE_SIZE
  }

  // The rows a pass leaves of a listing: of each page read the unexpired ones, and then as many rows
  // unread as were erased, which have moved up into the page just left.
  function Left(rows: seq<Model>, threshold: real): seq<Model>
    decreases |rows|
  {
    if |rows| <= MAX_PAGE_SIZE then Kept(rows, threshold)
    else
      var h := MAX_PAGE_SIZE + Skipped(rows, threshold);
      Kept(rows[..MAX_PAGE_SIZE], threshold) + rows[MAX_PAGE_SIZE..h] + Left(rows[h..], threshold)
  }

  // No expired row is among those that move up past the walker.
  ghost predicate SkipsNothing(rows: seq<Model>, threshold: real)
    decreases |rows|
  {
    |rows| > MAX_PAGE_SIZE ==>
      var h := MAX_PAGE_SIZE + Skipped(rows, threshold);
      NoneExpired(rows[MAX_PAGE_SIZE..h], threshold) && SkipsNothing(rows[h..], threshold)
  }

  function UnlessIn(m: Model, ids: set<string>): seq<Model> {
    if m.id in ids then [] else [m]
  }

  function Without(rows: seq<Model>, ids: set<string>): seq<Model> {
    if rows == [] then [] else UnlessIn(rows[0], ids) + Without(rows[1..], ids)
  }

  lemma {:induction false} WithoutAppend(a: seq<Model>, b: seq<Model>, ids: set<string>)
    ensures Without(a + b, ids) == Without(a, ids) + Without(b, ids)
  {
    hide UnlessIn;
    if a == [] {
      assert a + b == b;
    } else {
      assert (a + b)[0] == a[0] && (a + b)[1..] == a[1..] + b;
      WithoutAppend(a[1..], b, ids);
      Associates(UnlessIn(a[0], ids), Without(a[1..], ids), Without(b, ids));
    }
  }

  lemma {:induction false} WithoutNone(rows: seq<Model>, ids: set<string>)
    requires forall m :: m in rows ==> m.id !in ids
    ensures Without(rows, ids) == rows
  {
    if rows != [] {
      assert rows[0] in rows;
      WithoutNone(rows[1..], ids);
    }
  }

  lemma {:induction false} WithoutExpired(rows: seq<Model>, ids: set<string>, threshold: real)
    requires forall m :: m in rows ==> (m.id in ids <==> Expired(m, threshold))
    ensures Without(rows, ids) == Kept(rows, threshold)
  {
    if rows != [] {
      assert rows[0] in rows;
      WithoutExpired(rows[1..], ids, threshold);
    }
  }

  lemma ActiveHead(docs: seq<Model>)
    requires docs != []
    ensures Active(docs) == (if docs[0].active then [docs[0]] else []) + Active(docs[1..])
  {
  }

  lemma {:induction false} ActiveOfRetire(docs: seq<Model>, ids: set<string>, at: Stamps)
    ensures Active(Retire(docs, ids, at)) == Without(Active(docs), ids)
  {
    hide Select;
    if docs == [] {
      NoRows();
    } else {
      var after := Retire(docs, ids, at);
      assert after[1..] == Retire(docs[1..], ids, at);
      ActiveOfRetire(docs[1..], ids, at);
      ActiveHead(docs);
      ActiveHead(after);
      WithoutAppend(if docs[0].active then [docs[0]] else [], Active(docs[1..]), ids);
    }
  }

  lemma NoRows()
    ensures Active([]) == []
  {
  }

  // Erasing a page takes the expired rows out of it and leaves what is before and behind.
  lemma ListingAfterPage(docs: seq<Model>, threshold: real, at: Stamps, p: PageNumber, lo: nat, hi: nat)
    requires WellKeyed(docs) && lo <= hi <= |Active(docs)|
    requires PageAt(docs, p).items == Active(docs)[lo..hi]
    ensures var rows := Active(docs);
      Active(AfterPage(docs, threshold, at, p)) == rows[..lo] + Kept(rows[lo..hi], threshold) + rows[hi..]
  {
    hide Select, Without, Kept, WellKeyed, Retire;
    var rows := Active(docs);
    var page, ids := rows[lo..hi], ExpiredIds(rows[lo..hi], threshold);
    SelectWellKeyed(docs, EVERYTHING);
    ActiveOfRetire(docs, ids, at);
    forall m | m in rows[..lo] ensures m.id !in ids { OffThePage(rows, lo, hi, m); }
    forall m | m in rows[hi..] ensures m.id !in ids { OffThePage(rows, lo, hi, m); }
    forall m | m in page ensures m.id in ids <==> Expired(m, threshold) { OneRowPerId(rows, lo, hi, m); }
    WithoutNone(rows[..lo], ids);
    WithoutNone(rows[hi..], ids);
    WithoutExpired(page, ids, threshold);
    WithoutAppend(rows[..lo], page, ids);
    WithoutAppend(rows[..lo] + page, rows[hi..], ids);
    assert rows == rows[..lo] + page + rows[hi..];
  }

  lemma OffThePage(rows: seq<Model>, lo: nat, hi: nat, m: Model)
    requires WellKeyed(rows) && lo <= hi <= |rows| && (m in rows[..lo] || m in rows[hi..])
    ensures forall x :: x in rows[lo..hi] ==> x.id != m.id
  {
  }

  lemma OneRowPerId(rows: seq<Model>, lo: nat, hi: nat, m: Model)
    requires WellKeyed(rows) && lo <= hi <= |rows| && m in rows[lo..hi]
    ensures forall x :: x in rows[lo..hi] && x.id == m.id ==> x == m
  {
  }

  // Where the walker goes on once the page at k was read and erased: the rows it has passed and those that
  // moved up stay, and what the rest leaves makes up the whole.
  lemma MovesOn(rows: seq<Model>, k: nat, threshold: real, rows': seq<Model>, j: nat)
    requires k + MAX_PAGE_SIZE < |rows|
    requires var kept := Kept(rows[k..k + MAX_PAGE_SIZE], threshold);
      && rows' == rows[..k] + kept + rows[k + MAX_PAGE_SIZE..]
      && j == if k + MAX_PAGE_SIZE <= |rows'| then k + MAX_PAGE_SIZE else |rows'|
    ensures rows'[..j] + Left(rows'[j..], threshold) == rows[..k] + Left(rows[k..], threshold)
  {
    hide Kept, Left;
    var kept, rest, tail := Kept(rows[k..k + MAX_PAGE_SIZE], threshold), rows[k + MAX_PAGE_SIZE..], rows[k..];
    LeftStep(tail, threshold);
    assert tail[..MAX_PAGE_SIZE] == rows[k..k + MAX_PAGE_SIZE];
    var skipped := Skipped(tail, threshold);
    assert tail[MAX_PAGE_SIZE..MAX_PAGE_SIZE + skipped] == rest[..skipped];
    assert tail[MAX_PAGE_SIZE + skipped..] == rest[skipped..];
    CutBehind(rows[..k], kept, rest, skipped);
    assert j == k + |kept| + skipped;
    Associates(rows[..k], kept + rest[..skipped], Left(rest[skipped..], threshold));
  }

  lemma CutBehind<T>(a: seq<T>, b: seq<T>, rest: seq<T>, n: nat)
    requires n <= |rest|
    ensures (a + b + rest)[..|a| + |b| + n] == a + (b + rest[..n])
    ensures (a + b + rest)[|a| + |b| + n..] == rest[n..]
  {
  }

  /** MAIN: what a pass leaves is a function of the listing it started from.  Said from any page on: the
      rows before it stay, the rest is what the pages from there leave. */
  lemma {:induction false} PassLeaves(docs: seq<Model>, threshold: real, at: Stamps, p: PageNumber, k: nat)
    requires WellKeyed(docs)
    requires var n := |Active(docs)|; k == if (p - 1) * MAX_PAGE_SIZE <= n then (p - 1) * MAX_PAGE_SIZE else n
    ensures Active(Pass(docs, threshold, at, p)) == Active(docs)[..k] + Left(Active(docs)[k..], threshold)
    decreases |Active(docs)| - p * MAX_PAGE_SIZE
  {
    hide Pass, AfterPage, Select, Kept, Left, PageAt, WellKeyed;
    var rows := Active(docs);
    var docs' := AfterPage(docs, threshold, at, p);
    var hi := if k + MAX_PAGE_SIZE <= |rows| then k + MAX_PAGE_SIZE else |rows|;
    PageFrom(docs, p, k, hi);
    ListingAfterPage(docs, threshold, at, p, k, hi);
    PageStep(docs, threshold, at, p);
    PassGoesOn(docs, threshold, at, p);
    if LastPage(PageAt(docs, p)) {
      LeftStep(rows[k..], threshold);
      assert rows[k..hi] == rows[k..];
      assert rows[hi..] == [];
    } else {
      PageErodes(docs, threshold, at, p);
      var n' := |Active(docs')|;
      var j := if p * MAX_PAGE_SIZE <= n' then p * MAX_PAGE_SIZE else n';
      PassLeaves(docs', threshold, at, p + 1, j);
      MovesOn(rows, k, threshold, Active(docs'), j);
    }
  }

  lemma PageFrom(docs: seq<Model>, p: PageNumber, k: nat, hi: nat)
    requires var n := |Active(docs)|;
      && k == (if (p - 1) * MAX_PAGE_SIZE <= n then (p - 1) * MAX_PAGE_SIZE else n)
      && hi == (if k + MAX_PAGE_SIZE <= n then k + MAX_PAGE_SIZE else n)
    ensures PageAt(docs, p).items == Active(docs)[k..hi]
  {
    hide Select;
  }

  lemma LeftStep(rows: seq<Model>, threshold: real)
    ensures Left(rows, threshold) ==
      if |rows| <= MAX_PAGE_SIZE then Kept(rows, threshold)
      else
        var h := MAX_PAGE_SIZE + Skipped(rows, threshold);
        Kept(rows[..MAX_PAGE_SIZE], threshold) + rows[MAX_PAGE_SIZE..h] + Left(rows[h..], threshold)
  {
  }

  lemma {:induction false} KeptAreUnexpired(rows: seq<Model>, threshold: real)
    ensures NoneExpired(Kept(rows, threshold), threshold)
    ensures Kept(rows, threshold) == [] <==> forall m :: m in rows ==> Expired(m, threshold)
  {
    if rows != [] {
      KeptAreUnexpired(rows[1..], threshold);
      assert rows[0] in rows;
      assert forall m :: m in rows <==> m == rows[0] || m in rows[1..];
    }
  }

  lemma {:induction false} LeftCleanIff(rows: seq<Model>, threshold: real)
    ensures NoneExpired(Left(rows, threshold), threshold) <==> SkipsNothing(rows, threshold)
    decreases |rows|
  {
    hide Kept, Skipped;
    if |rows| <= MAX_PAGE_SIZE {
      KeptAreUnexpired(rows, threshold);
    } else {
      var h := MAX_PAGE_SIZE + Skipped(rows, threshold);
      KeptAreUnexpired(rows[..MAX_PAGE_SIZE], threshold);
      LeftCleanIff(rows[h..], threshold);
      var a, b, c := Kept(rows[..MAX_PAGE_SIZE], threshold), rows[MAX_PAGE_SIZE..h], Left(rows[h..], threshold);
      assert forall m :: m in a + b + c <==> m in a || m in b || m in c;
    }
  }

  /** MAIN: one pass erases every expired row, as `_erase` promises, if and only if no expired row is among
      the rows that move up past the walker, which the listing alone decides. */
  lemma OnePassSufficesIff(docs: seq<Model>, threshold: real, at: Stamps)
    requires WellKeyed(docs)
    ensures Active(Pass(docs, threshold, at, MIN_PAGE)) == Left(Active(docs), threshold)
    ensures NoneExpired(Active(Pass(docs, threshold, at, MIN_PAGE)), threshold) <==>
      SkipsNothing(Active(docs), threshold)
  {
    hide Pass, Left, SkipsNothing, Select;
    PassLeaves(docs, threshold, at, MIN_PAGE, 0);
    var rows := Active(docs);
    assert rows[..0] + Left(rows[0..], threshold) == Left(rows, threshold) by { assert rows[0..] == rows; }
    LeftCleanIff(rows, threshold);
  }

  lemma {:induction false} KeptMembers(rows: seq<Model>, threshold: real, m: Model)
    ensures m in Kept(rows, threshold) <==> m in rows && m.updatedAt >= threshold
  {
    if rows != [] {
      KeptMembers(rows[1..], threshold, m);
      assert m in rows <==> m == rows[0] || m in rows[1..];
    }
  }

  /** Past its TTL is a row whose last write predates the threshold, to the instant: a pass turns only such
      active rows into tombstones, and a listing of one page keeps exactly the others. */
  lemma PassKeepsTheCutoff(docs: seq<Model>, threshold: real, at: Stamps)
    requires WellKeyed(docs)
    ensures var after := Pass(docs, threshold, at, MIN_PAGE);
      && |after| == |docs|
      && (forall i :: 0 <= i < |docs| && after[i] != docs[i] ==>
            && docs[i].active && docs[i].updatedAt < threshold
            && after[i] == docs[i].(active := false, updatedAt := at(docs[i].id)))
      && (|Active(docs)| <= MAX_PAGE_SIZE ==>
            forall m :: m in Active(after) <==> m in Active(docs) && m.updatedAt >= threshold)
  {
    hide Pass, Select, Kept;
    var after := Pass(docs, threshold, at, MIN_PAGE);
    PassOnlyRetiresExpired(docs, threshold, at, MIN_PAGE);
    forall i | 0 <= i < |docs| && after[i] != docs[i]
      ensures docs[i].active && docs[i].updatedAt < threshold
      ensures after[i] == docs[i].(active := false, updatedAt := at(docs[i].id))
    {
      assert RowErodes(docs[i], after[i], threshold, at);
    }
    OnePassSufficesIff(docs, threshold, at);
    LeftStep(Active(docs), threshold);
    if |Active(docs)| <= MAX_PAGE_SIZE {
      forall m ensures m in Active(after) <==> m in Active(docs) && m.updatedAt >= threshold {
        KeptMembers(Active(docs), threshold, m);
      }
    }
  }

  /** So one pass alone can skip rows: with more than one page of rows, all expired, and at most two, it
      erases the first page and finds the second one empty, because the rest moved up. */
  lemma OnePassCanSkip(docs: seq<Model>, threshold: real, at: Stamps)
    requires WellKeyed(docs) && MAX_PAGE_SIZE < |Active(docs)| <= 2 * MAX_PAGE_SIZE
    requires forall m :: m in Active(docs) ==> Expired(m, threshold)
    ensures Active(Pass(docs, threshold, at, MIN_PAGE)) == Active(docs)[MAX_PAGE_SIZE..]
  {
    hide Pass, Select, Kept;
    var rows := Active(docs);
    OnePassSufficesIff(docs, threshold, at);
    KeptAreUnexpired(rows[..MAX_PAGE_SIZE], threshold);
    KeptAreUnexpired([], threshold);
    assert Skipped(rows, threshold) == |rows| - MAX_PAGE_SIZE;
    assert rows[|rows|..] == [];
    LeftStep(rows, threshold);
    LeftStep([], threshold);
  }

  // ---------- The pass itself ----------

  lemma SoftDeleteRetires(docs: seq<Model>, id: string, at: Stamps)
    requires WellKeyed(docs) && GetDoc(docs, id).Some?
    ensures SoftDeleteDoc(docs, id, at(id), None) == (Retire(docs, {id}, at), true)
  {
    hide Put;
    var i :| 0 <= i < |docs| && docs[i] == Lookup(docs, id).value;
    var gone := docs[i].Deactivated(at(id), None);
    var after := Retire(docs, {id}, at);
    assert forall j :: 0 <= j < |docs| && j != i ==> docs[j].id != id;
    PutPlaces(docs, gone, i);
    assert after[i] == gone && forall j :: 0 <= j < |docs| && j != i ==> after[j] == docs[j];
    assert after == docs[i := gone];
  }

  lemma RetireTwice(docs: seq<Model>, a: set<string>, b: set<string>, at: Stamps)
    ensures Retire(Retire(docs, a, at), b, at) == Retire(docs, a + b, at)
  {
  }

  lemma NextRow(items: seq<Model>, i: nat, threshold: real)
    requires i < |items|
    ensures ExpiredIds(items[..i + 1], threshold) ==
      ExpiredIds(items[..i], threshold) + if Expired(items[i], threshold) then {items[i].id} else {}
  {
    assert items[..i + 1] == items[..i] + [items[i]];
  }

  // A row read on this page has not been erased by the rows before it.
  lemma RowStillActive(docs: seq<Model>, p: PageNumber, i: nat, threshold: real, at: Stamps)
    requires WellKeyed(docs) && i < |PageAt(docs, p).items|
    ensures var items := PageAt(docs, p).items;
      GetDoc(Retire(docs, ExpiredIds(items[..i], threshold), at), items[i].id).Some?
  {
    var items := PageAt(docs, p).items;
    var k := (p - 1) * MAX_PAGE_SIZE + i;
    assert items[i] == Active(docs)[k];
    SelectWellKeyed(docs, EVERYTHING);
    assert items[i].id !in ExpiredIds(items[..i], threshold) by {
      forall j | 0 <= j < i ensures items[j].id != items[i].id {
        assert items[j] == Active(docs)[(p - 1) * MAX_PAGE_SIZE + j];
      }
    }
    ActiveIsFound(docs, k);
    RetireLookup(docs, ExpiredIds(items[..i], threshold), at, items[i].id);
  }

  lemma {:induction false} RetireLookup(docs: seq<Model>, ids: set<string>, at: Stamps, id: string)
    requires id !in ids
    ensures Lookup(Retire(docs, ids, at), id) == Lookup(docs, id)
  {
    if docs != [] {
      RetireLookup(docs[1..], ids, at, id);
      assert Retire(docs, ids, at)[1..] == Retire(docs[1..], ids, at);
    }
  }

  /** One page of the pass: each expired row of the page just read is soft-deleted as it is yielded. */
  method EraseRows(repo: InMemoryRepository, page: Page, number: PageNumber, threshold: real, at: Stamps)
    returns (erased: nat)
    requires WellKeyed(repo.docs) && page == PageAt(repo.docs, number)
    modifies repo
    ensures WellKeyed(repo.docs)
    ensures repo.docs == AfterPage(old(repo.docs), threshold, at, number)
    ensures erased == |Active(old(repo.docs))| - |Active(repo.docs)|
  {
    erased := 0;
    ghost var before := repo.docs;
    for i := 0 to |page.items|
      invariant WellKeyed(repo.docs)
      invariant repo.docs == Retire(before, ExpiredIds(page.items[..i], threshold), at)
      invariant erased == |Active(before)| - |Active(repo.docs)|
    {
      var row := page.items[i];
      NextRow(page.items, i, threshold);
      if Expired(row, threshold) {
        RowStillActive(before, number, i, threshold, at);
        SoftDeleteRetires(repo.docs, row.id, at);
        OneFewerActive(repo.docs, row.id, at);
        RetireTwice(before, ExpiredIds(page.items[..i], threshold), {row.id}, at);
        var deleted := repo.SoftDelete(row.id, at(row.id), None);
        if deleted {
          erased := erased + 1;
        }
      }
    }
    assert page.items[..|page.items|] == page.items;
  }

  lemma {:induction false} OneFewerActive(docs: seq<Model>, id: string, at: Stamps)
    requires WellKeyed(docs) && GetDoc(docs, id).Some?
    ensures |Active(Retire(docs, {id}, at))| == |Active(docs)| - 1
  {
    if docs[0].id == id {
      assert docs[0].Matches(EVERYTHING);
      assert forall j :: 1 <= j < |docs| ==> docs[j].id != id;
      assert Retire(docs, {id}, at)[1..] == docs[1..];
    } else {
      OneFewerActive(docs[1..], id, at);
      assert Retire(docs, {id}, at)[1..] == Retire(docs[1..], {id}, at);
    }
  }

  /** `_erase` of the retention service: the walk over the listing, erasing as it goes.  Its count is
      the number of rows it deactivated, and is zero only when there was nothing to erase. */
  method Erase(repo: InMemoryRepository, cutoff: real, ttl: real, at: Stamps) returns (erased: nat)
    requires WellKeyed(repo.docs)
    modifies repo
    ensures WellKeyed(repo.docs)
    ensures repo.docs == Pass(old(repo.docs), cutoff - ttl, at, MIN_PAGE)
    ensures erased == ExpiredCount(old(repo.docs), cutoff - ttl) - ExpiredCount(repo.docs, cutoff - ttl)
    ensures erased == 0 <==> NoneExpired(Active(old(repo.docs)), cutoff - ttl)
  {
    var threshold := cutoff - ttl;
    hide Pass, AfterPage, ExpiredCount, NoneExpired, Select;
    erased := 0;
    var number: PageNumber := MIN_PAGE;
    ghost var start := repo.docs;
    while true
      invariant WellKeyed(repo.docs)
      invariant erased == |Active(start)| - |Active(repo.docs)|
      invariant Pass(start, threshold, at, MIN_PAGE) == Pass(repo.docs, threshold, at, number)
      decreases |Active(repo.docs)| - number * MAX_PAGE_SIZE
    {
      PageStep(repo.docs, threshold, at, number);
      PassGoesOn(repo.docs, threshold, at, number);
      var page := repo.ListWhere(EVERYTHING, PageRequest(number, MAX_PAGE_SIZE));
      var n := EraseRows(repo, page, number, threshold, at);
      erased := erased + n;
      if page.items == [] || !page.HasNext() {
        PassSummary(start, threshold, at);
        return;
      }
      number := number + 1;
    }
  }

  lemma PassSummary(docs: seq<Model>, threshold: real, at: Stamps)
    requires WellKeyed(docs)
    ensures var after := Pass(docs, threshold, at, MIN_PAGE);
      var erased := |Active(docs)| - |Active(after)|;
      && erased == ExpiredCount(docs, threshold) - ExpiredCount(after, threshold)
      && (erased == 0 <==> NoneExpired(Active(docs), threshold))
  {
    PassMakesProgress(docs, threshold, at);
    CountIsZeroIff(docs, threshold);
    PassOnlyRetiresExpired(docs, threshold, at, MIN_PAGE);
    CountsDropTogether(docs, Pass(docs, threshold, at, MIN_PAGE), threshold, at);
  }
}
