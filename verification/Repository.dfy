/** The in-memory document repository and its offset paging.

    A collection is a Python dict keyed by document id whose insertion order is the listing
    order.  It is modelled as the sequence of its documents in that order, each carrying its own
    key; `WellKeyed` says that keys are set and unique. */
module Repository {
  import opened Wrappers
  import opened Sequences

  const MIN_PAGE := 1
  const MIN_PAGE_SIZE := 1
  const MAX_PAGE_SIZE := 100

  type PageNumber = n: int | n >= MIN_PAGE witness 1
  type PageSize = n: int | MIN_PAGE_SIZE <= n <= MAX_PAGE_SIZE witness 1

  // ---------- Pagination ----------

  datatype PageRequest = PageRequest(page: PageNumber, size: PageSize) {
    function Skip(): nat { (page - MIN_PAGE) * size }

    function Limit(): nat { size }
  }

  datatype Page = Page(items: seq<Model>, total: nat, page: int, size: int) {
    // ceil(total / size), or 0 when the page size is not positive
    function Pages(): nat {
      if size <= 0 then 0 else (total + size - 1) / size
    }

    predicate HasNext() { page < Pages() }
  }

  // Python's xs[lo:hi] for nonnegative bounds: both ends are clamped.
  function Slice<T>(xs: seq<T>, lo: nat, hi: nat): seq<T> {
    var h := if hi <= |xs| then hi else |xs|;
    if lo <= h then xs[lo..h] else []
  }

  // ---------- Documents ----------

  datatype Value = Null | Text(s: string) | Flag(b: bool) | Number(n: int) | Instant(t: real)

  // `id == ""` stands for a model that carries no id yet.
  datatype Model = Model(
    id: string,
    tenant: Option<string>,
    active: bool,
    updatedAt: real,
    updatedBy: Option<string>,
    extra: map<string, Value>)
  {
    // getattr(model, field, None)
    function Field(name: string): Value {
      match name
      case "id" => if id == "" then Null else Text(id)
      case "tenant_id" => OptionalText(tenant)
      case "is_active" => Flag(active)
      case "updated_at" => Instant(updatedAt)
      case "updated_by" => OptionalText(updatedBy)
      case _ => if name in extra then extra[name] else Null
    }

    function Touched(now: real, user: Option<string>): Model {
      this.(updatedAt := now, updatedBy := if user.Some? then user else updatedBy)
    }

    function Deactivated(now: real, user: Option<string>): Model {
      this.(active := false).Touched(now, user)
    }

    predicate Matches(filters: map<string, Value>) {
      forall name :: name in filters ==> Field(name) == filters[name]
    }
  }

  function OptionalText(o: Option<string>): Value {
    if o.Some? then Text(o.value) else Null
  }

  ghost predicate WellKeyed(docs: seq<Model>) {
    && (forall i :: 0 <= i < |docs| ==> docs[i].id != "")
    && (forall i, j :: 0 <= i < j < |docs| ==> docs[i].id != docs[j].id)
  }

  // documents[d.id] = d: an existing key keeps its place in the order, a new one goes last.
  function Put(docs: seq<Model>, d: Model): seq<Model> {
    if docs == [] then [d]
    else if docs[0].id == d.id then [d] + docs[1..]
    else [docs[0]] + Put(docs[1..], d)
  }

  // documents.get(id)
  function Lookup(docs: seq<Model>, id: string): (r: Option<Model>)
    ensures r.Some? ==> r.value in docs && r.value.id == id
    ensures r.None? ==> forall m :: m in docs ==> m.id != id
  {
    if docs == [] then None
    else if docs[0].id == id then Some(docs[0])
    else Lookup(docs[1..], id)
  }

  predicate Listed(m: Model, filters: map<string, Value>) {
    m.active && m.Matches(filters)
  }

  // The active documents matching every filter, in listing order.
  function Select(docs: seq<Model>, filters: map<string, Value>): seq<Model> {
    if docs == [] then []
    else (if Listed(docs[0], filters) then [docs[0]] else []) + Select(docs[1..], filters)
  }

  function GetDoc(docs: seq<Model>, id: string): Option<Model> {
    var d := Lookup(docs, id);
    if d.Some? && d.value.active then d else None
  }

  function ListDocs(docs: seq<Model>, filters: map<string, Value>, r: PageRequest): Page {
    var matched := Select(docs, filters);
    Page(Slice(matched, r.Skip(), r.Skip() + r.Limit()), |matched|, r.page, r.size)
  }

  // The stored copy of an inserted model: `freshId` is the uuid drawn when it carries no id.
  function Keyed(m: Model, freshId: string): Model {
    if m.id == "" then m.(id := freshId) else m
  }

  function SoftDeleteDoc(docs: seq<Model>, id: string, now: real, user: Option<string>): (seq<Model>, bool) {
    var d := GetDoc(docs, id);
    if d.None? then (docs, false) else (Put(docs, d.value.Deactivated(now, user)), true)
  }

  function UpdateDoc(docs: seq<Model>, m: Model, now: real): (seq<Model>, Option<Model>) {
    if m.id == "" || GetDoc(docs, m.id).None? then (docs, None)
    else (Put(docs, m.Touched(now, None)), Some(m.Touched(now, None)))
  }

  function FindMany(docs: seq<Model>, field: string, value: Value, limit: int): seq<Model> {
    Slice(Select(docs, map[field := value]), 0, Bounded(limit))
  }

  function FindFirst(docs: seq<Model>, field: string, value: Value): Option<Model> {
    var matched := Select(docs, map[field := value]);
    if matched == [] then None else Some(matched[0])
  }

  function Bounded(limit: int): nat {
    if limit < 0 then 0 else if limit <= MAX_PAGE_SIZE then limit else MAX_PAGE_SIZE
  }

  // ---------- The dict laws ----------

  lemma {:induction false} PutContains(docs: seq<Model>, d: Model)
    ensures |Put(docs, d)| >= |docs|
    ensures forall x :: x in Put(docs, d) ==> x == d || x in docs
  {
    if docs != [] && docs[0].id != d.id {
      PutContains(docs[1..], d);
    }
  }

  lemma {:induction false} PutReads(docs: seq<Model>, d: Model, id: string)
    ensures Lookup(Put(docs, d), id) == if id == d.id then Some(d) else Lookup(docs, id)
  {
    if docs != [] && docs[0].id != d.id {
      PutReads(docs[1..], d, id);
    }
  }

  lemma {:induction false} PutKeyed(docs: seq<Model>, d: Model)
    requires WellKeyed(docs) && d.id != ""
    ensures WellKeyed(Put(docs, d))
  {
    if docs == [] {
    } else if docs[0].id == d.id {
      assert forall j :: 1 <= j < |docs| ==> Put(docs, d)[j] == docs[j] && docs[j].id != d.id;
    } else {
      PutKeyed(docs[1..], d);
      PutContains(docs[1..], d);
      var rest := Put(docs[1..], d);
      assert forall x :: x in docs[1..] ==> x.id != docs[0].id;
      assert forall j :: 0 <= j < |rest| ==> rest[j] in rest && rest[j].id != docs[0].id;
      assert Put(docs, d) == [docs[0]] + rest;
    }
  }

  /** An assignment to one key leaves the key set well formed and every other key as it was. */
  lemma PutLookup(docs: seq<Model>, d: Model, id: string)
    requires WellKeyed(docs) && d.id != ""
    ensures WellKeyed(Put(docs, d))
    ensures Lookup(Put(docs, d), id) == if id == d.id then Some(d) else Lookup(docs, id)
  {
    PutKeyed(docs, d);
    PutReads(docs, d, id);
  }

  /** An assignment to an existing key keeps its place in the order; a new key goes last. */
  lemma {:induction false} PutPlaces(docs: seq<Model>, d: Model, i: nat)
    requires i <= |docs| && forall j :: 0 <= j < i ==> docs[j].id != d.id
    requires i < |docs| ==> docs[i].id == d.id
    ensures Put(docs, d) == if i < |docs| then docs[i := d] else docs + [d]
  {
    if i > 0 {
      PutPlaces(docs[1..], d, i - 1);
    }
  }

  /** A lookup by id finds the one document under it, while it is active. */
  lemma {:induction false} GetIff(docs: seq<Model>, id: string, d: Model)
    requires WellKeyed(docs)
    ensures GetDoc(docs, id) == Some(d) <==> d in docs && d.id == id && d.active
  {
    if d in docs && d.id == id {
      var i :| 0 <= i < |docs| && docs[i] == d;
      var found := Lookup(docs, id).value;
      var j :| 0 <= j < |docs| && docs[j] == found;
      assert i == j;
    }
  }

  // ---------- The listing ----------

  lemma {:induction false} SelectMembers(docs: seq<Model>, filters: map<string, Value>, m: Model)
    ensures m in Select(docs, filters) <==> m in docs && Listed(m, filters)
  {
    hide Listed;
    if docs != [] {
      SelectMembers(docs[1..], filters, m);
      assert m in docs <==> m == docs[0] || m in docs[1..];
    }
  }

  /** A listing never repeats a row. */
  lemma {:induction false} SelectWellKeyed(docs: seq<Model>, filters: map<string, Value>)
    requires WellKeyed(docs)
    ensures WellKeyed(Select(docs, filters))
  {
    hide Listed;
    if docs != [] {
      SelectWellKeyed(docs[1..], filters);
      var rest := Select(docs[1..], filters);
      forall j | 0 <= j < |rest| ensures rest[j].id != "" && rest[j].id != docs[0].id {
        SelectMembers(docs[1..], filters, rest[j]);
      }
    }
  }

  lemma {:induction false} SelectAppend(a: seq<Model>, b: seq<Model>, filters: map<string, Value>)
    ensures Select(a + b, filters) == Select(a, filters) + Select(b, filters)
  {
    hide Listed;
    if a == [] {
      assert a + b == b;
    } else {
      SelectAppend(a[1..], b, filters);
      assert (a + b)[0] == a[0] && (a + b)[1..] == a[1..] + b;
      Associates(if Listed(a[0], filters) then [a[0]] else [], Select(a[1..], filters), Select(b, filters));
    }
  }

  /** What a filter on one field asks: the stored tenant, the stored flag, or a business field, which reads
      as null when it is absent. */
  lemma OneFilter(m: Model, name: string, v: Value)
    ensures m.Matches(map["tenant_id" := v]) <==> v == (if m.tenant.Some? then Text(m.tenant.value) else Null)
    ensures m.Matches(map["is_active" := v]) <==> v == Flag(m.active)
    ensures name !in {"id", "tenant_id", "is_active", "updated_at", "updated_by"} ==>
      (m.Matches(map[name := v]) <==> v == if name in m.extra then m.extra[name] else Null)
  {
    forall n: string ensures m.Matches(map[n := v]) <==> m.Field(n) == v {
      assert n in map[n := v];
    }
  }

  /** The page asked for: the rows from (page - 1) * size on, at most size of them, and the exact total. */
  lemma PageWindow(docs: seq<Model>, filters: map<string, Value>, r: PageRequest)
    ensures var page := ListDocs(docs, filters, r);
      var all, from := Select(docs, filters), (r.page - 1) * r.size;
      && page.total == |all| && page.page == r.page && page.size == r.size
      && |page.items| == (if from >= |all| then 0 else if |all| - from < r.size then |all| - from else r.size)
      && from >= 0 && forall k :: 0 <= k < |page.items| ==> from + k < |all| && page.items[k] == all[from + k]
  {
    hide Select;
    assert r.Skip() == (r.page - 1) * r.size;
  }

  /** A bounded lookup returns the first matches, at most the limit and never more than a page. */
  lemma FindManyWindow(docs: seq<Model>, field: string, value: Value, limit: int)
    ensures var all := Select(docs, map[field := value]);
      var bound := if limit < 0 then 0 else if limit < 100 then limit else 100;
      FindMany(docs, field, value, limit) == if |all| <= bound then all else all[..bound]
  {
    hide Select;
  }

  /** A single lookup finds the first document in listing order that is active and has the value. */
  lemma {:induction false} FindFirstIs(docs: seq<Model>, field: string, value: Value)
    ensures var r := FindFirst(docs, field, value);
      if r.None? then forall j :: 0 <= j < |docs| ==> !(docs[j].active && docs[j].Field(field) == value)
      else exists i :: 0 <= i < |docs| && FirstWith(docs, field, value, i) && r.value == docs[i]
  {
    var filters := map[field := value];
    assert field in filters;
    if docs != [] {
      FindFirstIs(docs[1..], field, value);
      var r, rest := FindFirst(docs, field, value), FindFirst(docs[1..], field, value);
      if docs[0].active && docs[0].Field(field) == value {
        assert FirstWith(docs, field, value, 0);
      } else if rest.Some? {
        var i :| 0 <= i < |docs[1..]| && FirstWith(docs[1..], field, value, i) && rest.value == docs[1..][i];
        assert forall j :: 0 <= j < i ==> docs[j + 1] == docs[1..][j];
        assert FirstWith(docs, field, value, i + 1);
      }
    }
  }

  ghost predicate FirstWith(docs: seq<Model>, field: string, value: Value, i: nat)
    requires i < |docs|
  {
    && docs[i].active && docs[i].Field(field) == value
    && forall j :: 0 <= j < i ==> !(docs[j].active && docs[j].Field(field) == value)
  }

  // ---------- The repository ----------

  class InMemoryRepository {
    var docs: seq<Model>

    constructor ()
      ensures docs == [] && WellKeyed(docs)
    {
      docs := [];
    }

    method Insert(m: Model, freshId: string) returns (stored: Model)
      requires WellKeyed(docs)
      requires freshId != ""
      modifies this
      ensures stored == m.(id := if m.id == "" then freshId else m.id)
      ensures docs == Put(old(docs), stored) && WellKeyed(docs)
      ensures forall id :: Lookup(docs, id) == if id == stored.id then Some(stored) else Lookup(old(docs), id)
    {
      stored := m;
      if stored.id == "" {
        stored := stored.(id := freshId);
      }
      forall id ensures Lookup(Put(docs, stored), id) == if id == stored.id then Some(stored) else Lookup(docs, id) {
        PutLookup(docs, stored, id);
      }
      PutLookup(docs, stored, "");
      docs := Put(docs, stored);
    }

    method Get(id: string) returns (r: Option<Model>)
      ensures r == GetDoc(docs, id)
      ensures r.Some? ==> r.value.active && r.value.id == id && r.value in docs
    {
      r := Lookup(docs, id);
      if r.Some? && !r.value.active {
        r := None;
      }
    }

    method ListWhere(filters: map<string, Value>, r: PageRequest) returns (page: Page)
      ensures page == ListDocs(docs, filters, r)
      ensures |page.items| <= r.size
      ensures page.total == |Select(docs, filters)|
    {
      var matched := Select(docs, filters);
      page := Page(Slice(matched, r.Skip(), r.Skip() + r.Limit()), |matched|, r.page, r.size);
    }

    method FindOne(field: string, value: Value) returns (r: Option<Model>)
      ensures r == FindFirst(docs, field, value)
    {
      var filters := map[field := value];
      hide Listed;
      for i := 0 to |docs|
        invariant Select(docs[..i], filters) == []
      {
        SelectAppend(docs[..i], docs[i..], filters);
        assert docs == docs[..i] + docs[i..];
        assert docs[i..][0] == docs[i];
        if Listed(docs[i], filters) {
          return Some(docs[i]);
        }
        SelectAppend(docs[..i], [docs[i]], filters);
        assert docs[..i + 1] == docs[..i] + [docs[i]];
      }
      assert docs == docs[..|docs|];
      r := None;
    }

    method Update(m: Model, now: real) returns (r: Option<Model>)
      requires WellKeyed(docs)
      modifies this
      ensures (docs, r) == UpdateDoc(old(docs), m, now) && WellKeyed(docs)
      ensures r.Some? <==> m.id != "" && exists d :: d in old(docs) && d.id == m.id && d.active
      ensures r.Some? ==> r.value == m.(updatedAt := now) && Lookup(docs, m.id) == r
      ensures r.None? ==> docs == old(docs)
      ensures forall id :: id != m.id ==> Lookup(docs, id) == Lookup(old(docs), id)
    {
      var stored := if m.id == "" then None else Lookup(docs, m.id);
      forall d | d in docs && d.id == m.id ensures stored.Some? ==> stored.value == d {
        if stored.Some? && d.active { GetIff(docs, m.id, d); }
        if stored.Some? && stored.value.active { GetIff(docs, m.id, stored.value); }
      }
      if stored.None? || !stored.value.active {
        return None;
      }
      var touched := m.Touched(now, None);
      forall id ensures Lookup(Put(docs, touched), id) == if id == m.id then Some(touched) else Lookup(docs, id) {
        PutLookup(docs, touched, id);
      }
      PutLookup(docs, touched, "");
      docs := Put(docs, touched);
      r := Some(touched);
    }

    method SoftDelete(id: string, now: real, user: Option<string>) returns (deleted: bool)
      requires WellKeyed(docs)
      modifies this
      ensures (docs, deleted) == SoftDeleteDoc(old(docs), id, now, user) && WellKeyed(docs)
      ensures deleted <==> GetDoc(old(docs), id).Some?
      ensures deleted ==>
        var was := Lookup(old(docs), id);
        was.Some? && Lookup(docs, id) == Some(was.value.(
          active := false, updatedAt := now, updatedBy := if user.Some? then user else was.value.updatedBy))
      ensures GetDoc(docs, id).None?
      ensures forall other :: other != id ==> Lookup(docs, other) == Lookup(old(docs), other)
    {
      var stored := Lookup(docs, id);
      if stored.None? || !stored.value.active {
        return false;
      }
      var gone := stored.value.Deactivated(now, user);
      forall other ensures Lookup(Put(docs, gone), other) == if other == id then Some(gone) else Lookup(docs, other) {
        PutLookup(docs, gone, other);
      }
      PutLookup(docs, gone, "");
      docs := Put(docs, gone);
      deleted := true;
    }
  }
}
