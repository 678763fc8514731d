/** The tenant-scoped view: many tenants share one repository, and each sees a private one. */
module Scoped {
  import opened Wrappers
  import opened Sequences
  import opened Repository

  const TENANT_ID_FIELD := "tenant_id"

  datatype Op =
    | Insert(model: Model, freshId: string)
    | Get(id: string)
    | ListWhere(filters: map<string, Value>, request: PageRequest)
    | Update(model: Model, now: real)
    | SoftDelete(id: string, now: real, user: Option<string>)

  datatype Reply =
    | Stored(model: Model)
    | Found(result: Option<Model>)
    | Listing(page: Page)
    | Deleted(done: bool)
    | NotFound

  predicate Owns(t: string, m: Model) {
    m.tenant == Some(t)
  }

  function Stamped(t: string, m: Model): Model {
    m.(tenant := Some(t))
  }

  // [row for row in rows if row.is_active and row.tenant_id == t]
  function OwnRows(t: string, rows: seq<Model>): seq<Model> {
    if rows == [] then []
    else (if rows[0].active && Owns(t, rows[0]) then [rows[0]] else []) + OwnRows(t, rows[1..])
  }

  function ScopedGet(docs: seq<Model>, t: string, id: string): Option<Model> {
    var m := GetDoc(docs, id);
    if m.Some? && Owns(t, m.value) then m else None
  }

  function ScopedList(docs: seq<Model>, t: string, filters: map<string, Value>, r: PageRequest): Page {
    if TENANT_ID_FIELD in filters && filters[TENANT_ID_FIELD] != Text(t) then
      Page([], 0, r.page, r.size)
    else
      var page := ListDocs(docs, filters[TENANT_ID_FIELD := Text(t)], r);
      page.(items := OwnRows(t, page.items))
  }

  // One operation of tenant t against the shared documents.
  function ScopedStep(docs: seq<Model>, t: string, op: Op): (seq<Model>, Reply) {
    match op
    case Insert(m, freshId) =>
      var stored := Keyed(Stamped(t, m), freshId);
      (Put(docs, stored), Stored(stored))
    case Get(id) => (docs, Found(ScopedGet(docs, t, id)))
    case ListWhere(filters, r) => (docs, Listing(ScopedList(docs, t, filters, r)))
    case Update(m, now) =>
      if ScopedGet(docs, t, m.id).None? then (docs, NotFound)
      else
        var (docs', stored) := UpdateDoc(docs, Stamped(t, m), now);
        (docs', if stored.Some? then Stored(stored.value) else NotFound)
    case SoftDelete(id, now, user) =>
      if ScopedGet(docs, t, id).None? then (docs, NotFound)
      else
        var (docs', deleted) := SoftDeleteDoc(docs, id, now, user);
        (docs', Deleted(deleted))
  }

  // The same operation against a plain repository that only tenant t ever uses; a delete
  // that finds nothing to do is reported as not found.
  function PrivateStep(docs: seq<Model>, t: string, op: Op): (seq<Model>, Reply) {
    match op
    case Insert(m, freshId) =>
      var stored := Keyed(Stamped(t, m), freshId);
      (Put(docs, stored), Stored(stored))
    case Get(id) => (docs, Found(GetDoc(docs, id)))
    case ListWhere(filters, r) => (docs, Listing(ListDocs(docs, filters, r)))
    case Update(m, now) =>
      var (docs', stored) := UpdateDoc(docs, Stamped(t, m), now);
      (docs', if stored.Some? then Stored(stored.value) else NotFound)
    case SoftDelete(id, now, user) =>
      var (docs', deleted) := SoftDeleteDoc(docs, id, now, user);
      (docs', if deleted then Deleted(true) else NotFound)
  }

  // What tenant t's private repository holds: its own rows, deleted ones included.
  function View(docs: seq<Model>, t: string): seq<Model> {
    if docs == [] then []
    else (if Owns(t, docs[0]) then [docs[0]] else []) + View(docs[1..], t)
  }

  // The stored row under `id`, if any, belongs to t.
  predicate FreeFor(docs: seq<Model>, t: string, id: string) {
    var d := Lookup(docs, id);
    d.Some? ==> Owns(t, d.value)
  }

  // A drawn uuid is unused; a model's own id is not held by anyone else.
  predicate Admissible(docs: seq<Model>, t: string, op: Op) {
    op.Insert? ==>
      if op.model.id == "" then op.freshId != "" && Lookup(docs, op.freshId).None?
      else FreeFor(docs, t, op.model.id)
  }

  // ---------- One step ----------

  lemma {:induction false} ViewMembers(docs: seq<Model>, t: string, m: Model)
    ensures m in View(docs, t) <==> m in docs && Owns(t, m)
  {
    if docs != [] {
      ViewMembers(docs[1..], t, m);
      assert m in docs <==> m == docs[0] || m in docs[1..];
    }
  }

  lemma {:induction false} ViewWellKeyed(docs: seq<Model>, t: string)
    requires WellKeyed(docs)
    ensures WellKeyed(View(docs, t))
  {
    if docs != [] {
      ViewWellKeyed(docs[1..], t);
      var rest := View(docs[1..], t);
      forall j | 0 <= j < |rest| ensures rest[j].id != "" && rest[j].id != docs[0].id {
        ViewMembers(docs[1..], t, rest[j]);
      }
    }
  }

  lemma {:induction false} ViewLookup(docs: seq<Model>, t: string, id: string)
    requires WellKeyed(docs)
    ensures Lookup(View(docs, t), id) ==
      var d := Lookup(docs, id); if d.Some? && Owns(t, d.value) then d else None
  {
    if docs != [] {
      ViewLookup(docs[1..], t, id);
      var view := View(docs, t);
      if Owns(t, docs[0]) {
        assert view[1..] == View(docs[1..], t);
      } else {
        assert view == View(docs[1..], t);
        if docs[0].id == id {
          assert Lookup(docs[1..], id).None?;
        }
      }
    }
  }

  lemma {:induction false} ViewPutOwn(docs: seq<Model>, t: string, d: Model)
    requires WellKeyed(docs) && Owns(t, d) && FreeFor(docs, t, d.id)
    ensures View(Put(docs, d), t) == Put(View(docs, t), d)
  {
    if docs == [] {
    } else if docs[0].id == d.id {
      assert Put(docs, d)[1..] == docs[1..];
    } else {
      ViewPutOwn(docs[1..], t, d);
      assert Put(docs, d)[1..] == Put(docs[1..], d);
      if Owns(t, docs[0]) {
        assert View(docs, t)[1..] == View(docs[1..], t);
      } else {
        assert View(docs, t) == View(docs[1..], t);
      }
    }
  }

  lemma {:induction false} ViewPutOther(docs: seq<Model>, u: string, d: Model)
    requires WellKeyed(docs) && !Owns(u, d)
    requires var held := Lookup(docs, d.id); held.Some? ==> !Owns(u, held.value)
    ensures View(Put(docs, d), u) == View(docs, u)
  {
    if docs == [] {
    } else if docs[0].id == d.id {
      assert Put(docs, d)[1..] == docs[1..];
    } else {
      ViewPutOther(docs[1..], u, d);
      assert Put(docs, d)[1..] == Put(docs[1..], d);
    }
  }

  // Stamping the tenant into the selector selects what the private repository selects.
  lemma {:induction false} SelectView(docs: seq<Model>, t: string, filters: map<string, Value>)
    requires TENANT_ID_FIELD in filters ==> filters[TENANT_ID_FIELD] == Text(t)
    ensures Select(docs, filters[TENANT_ID_FIELD := Text(t)]) == Select(View(docs, t), filters)
  {
    if docs != [] {
      SelectView(docs[1..], t, filters);
      var m := docs[0];
      var stamped := filters[TENANT_ID_FIELD := Text(t)];
      assert m.Field(TENANT_ID_FIELD) == Text(t) <==> Owns(t, m);
      assert m.Matches(stamped) <==> Owns(t, m) && m.Matches(filters) by {
        if m.Matches(stamped) {
          assert TENANT_ID_FIELD in stamped;
          forall name | name in filters ensures m.Field(name) == filters[name] { assert name in stamped; }
        }
      }
      if Owns(t, m) {
        assert View(docs, t)[1..] == View(docs[1..], t);
      } else {
        assert View(docs, t) == View(docs[1..], t);
      }
    }
  }

  lemma {:induction false} OwnRowsKeepsAll(t: string, rows: seq<Model>)
    requires forall m :: m in rows ==> m.active && Owns(t, m)
    ensures OwnRows(t, rows) == rows
  {
    if rows != [] {
      assert rows[0] in rows;
      OwnRowsKeepsAll(t, rows[1..]);
    }
  }

  lemma {:induction false} NothingMatchesForeignTenant(view: seq<Model>, t: string, filters: map<string, Value>)
    requires forall m :: m in view ==> Owns(t, m)
    requires TENANT_ID_FIELD in filters && filters[TENANT_ID_FIELD] != Text(t)
    ensures Select(view, filters) == []
  {
    if view != [] {
      assert view[0] in view;
      assert view[0].Field(TENANT_ID_FIELD) == Text(t);
      assert !view[0].Matches(filters);
      NothingMatchesForeignTenant(view[1..], t, filters);
    }
  }

  /** A scoped listing is the private repository's listing: rows, order, window and total. */
  lemma ScopedListIsPrivate(docs: seq<Model>, t: string, filters: map<string, Value>, r: PageRequest)
    ensures ScopedList(docs, t, filters, r) == ListDocs(View(docs, t), filters, r)
  {
    var view := View(docs, t);
    forall m | m in view ensures Owns(t, m) { ViewMembers(docs, t, m); }
    if TENANT_ID_FIELD in filters && filters[TENANT_ID_FIELD] != Text(t) {
      NothingMatchesForeignTenant(view, t, filters);
    } else {
      SelectView(docs, t, filters);
      var items := ListDocs(view, filters, r).items;
      forall m | m in items ensures m.active && Owns(t, m) {
        assert m in Select(view, filters);
        SelectMembers(view, filters, m);
      }
      OwnRowsKeepsAll(t, items);
    }
  }

  lemma ScopedGetIsPrivate(docs: seq<Model>, t: string, id: string)
    requires WellKeyed(docs)
    ensures ScopedGet(docs, t, id) == GetDoc(View(docs, t), id)
  {
    ViewLookup(docs, t, id);
  }

  lemma StepKeepsKeys(docs: seq<Model>, t: string, op: Op)
    requires WellKeyed(docs) && Admissible(docs, t, op)
    ensures WellKeyed(ScopedStep(docs, t, op).0)
  {
    match op
    case Insert(m, freshId) => PutLookup(docs, Keyed(Stamped(t, m), freshId), "");
    case Update(m, now) =>
      if UpdateDoc(docs, Stamped(t, m), now).1.Some? { PutLookup(docs, Stamped(t, m).Touched(now, None), ""); }
    case SoftDelete(id, now, user) =>
      var d := GetDoc(docs, id);
      if d.Some? { PutLookup(docs, d.value.Deactivated(now, user), ""); }
    case _ =>
  }

  /** The acting tenant cannot tell the shared store from its private one. */
  lemma OwnStep(docs: seq<Model>, t: string, op: Op)
    requires WellKeyed(docs) && Admissible(docs, t, op)
    ensures var (docs', reply) := ScopedStep(docs, t, op);
      PrivateStep(View(docs, t), t, op) == (View(docs', t), reply)
  {
    match op
    case Insert(m, freshId) => ViewPutOwn(docs, t, Keyed(Stamped(t, m), freshId));
    case Get(id) => ScopedGetIsPrivate(docs, t, id);
    case ListWhere(filters, r) => ScopedListIsPrivate(docs, t, filters, r);
    case Update(m, now) =>
      ScopedGetIsPrivate(docs, t, m.id);
      if m.id != "" && ScopedGet(docs, t, m.id).Some? {
        ViewPutOwn(docs, t, Stamped(t, m).Touched(now, None));
      }
    case SoftDelete(id, now, user) =>
      ScopedGetIsPrivate(docs, t, id);
      var d := ScopedGet(docs, t, id);
      if d.Some? { ViewPutOwn(docs, t, d.value.Deactivated(now, user)); }
  }

  /** Nobody else's private store moves. */
  lemma OtherStep(docs: seq<Model>, t: string, u: string, op: Op)
    requires WellKeyed(docs) && Admissible(docs, t, op) && u != t
    ensures View(ScopedStep(docs, t, op).0, u) == View(docs, u)
  {
    match op
    case Insert(m, freshId) => ViewPutOther(docs, u, Keyed(Stamped(t, m), freshId));
    case Update(m, now) =>
      if m.id != "" && ScopedGet(docs, t, m.id).Some? {
        ViewPutOther(docs, u, Stamped(t, m).Touched(now, None));
      }
    case SoftDelete(id, now, user) =>
      var d := ScopedGet(docs, t, id);
      if d.Some? { ViewPutOther(docs, u, d.value.Deactivated(now, user)); }
    case _ =>
  }

  // ---------- Whole runs ----------

  datatype Call = Call(tenant: string, op: Op)

  predicate AdmissibleRun(docs: seq<Model>, calls: seq<Call>)
    decreases |calls|
  {
    calls == [] ||
    (Admissible(docs, calls[0].tenant, calls[0].op)
     && AdmissibleRun(ScopedStep(docs, calls[0].tenant, calls[0].op).0, calls[1..]))
  }

  // The shared documents after the run, and the replies tenant t received, in order.
  function SharedRun(docs: seq<Model>, calls: seq<Call>, t: string): (seq<Model>, seq<Reply>)
    decreases |calls|
  {
    if calls == [] then (docs, [])
    else
      var (docs', reply) := ScopedStep(docs, calls[0].tenant, calls[0].op);
      var (final, replies) := SharedRun(docs', calls[1..], t);
      (final, (if calls[0].tenant == t then [reply] else []) + replies)
  }

  function OwnOps(calls: seq<Call>, t: string): seq<Op> {
    if calls == [] then []
    else (if calls[0].tenant == t then [calls[0].op] else []) + OwnOps(calls[1..], t)
  }

  function PrivateRun(docs: seq<Model>, ops: seq<Op>, t: string): (seq<Model>, seq<Reply>)
    decreases |ops|
  {
    if ops == [] then (docs, [])
    else
      var (docs', reply) := PrivateStep(docs, t, ops[0]);
      var (final, replies) := PrivateRun(docs', ops[1..], t);
      (final, [reply] + replies)
  }

  /** MAIN: over any interleaving of any tenants' operations on one shared collection, tenant t
      observes exactly what a private repository receiving only its own operations would reply,
      starting from its own rows of whatever the collection held; and the ids of that repository stay
      set and unique. */
  lemma {:induction false} TenantsAreIsolated(docs: seq<Model>, calls: seq<Call>, t: string)
    requires WellKeyed(docs) && AdmissibleRun(docs, calls)
    ensures var (final, replies) := SharedRun(docs, calls, t);
      && PrivateRun(View(docs, t), OwnOps(calls, t), t) == (View(final, t), replies)
      && WellKeyed(final) && WellKeyed(View(final, t))
    decreases |calls|
  {
    if calls == [] {
      ViewWellKeyed(docs, t);
    } else {
      var c := calls[0];
      var docs' := ScopedStep(docs, c.tenant, c.op).0;
      StepKeepsKeys(docs, c.tenant, c.op);
      TenantsAreIsolated(docs', calls[1..], t);
      if c.tenant == t {
        OwnStep(docs, t, c.op);
        assert OwnOps(calls, t)[0] == c.op;
        assert OwnOps(calls, t)[1..] == OwnOps(calls[1..], t);
      } else {
        OtherStep(docs, c.tenant, t, c.op);
        assert OwnOps(calls, t) == OwnOps(calls[1..], t);
        assert SharedRun(docs, calls, t).1 == SharedRun(docs', calls[1..], t).1;
      }
    }
  }

  // ---------- What is written is what is read ----------

  /** An update reaches exactly an own active row; the reply and every later read carry the fields given. */
  lemma UpdateThenGet(docs: seq<Model>, t: string, m: Model, now: real)
    requires WellKeyed(docs)
    ensures var (after, reply) := ScopedStep(docs, t, Update(m, now));
      var written := m.(tenant := Some(t), updatedAt := now);
      if m.id != "" && exists d :: d in docs && d.id == m.id && d.active && d.tenant == Some(t) then
        && reply == Stored(written)
        && ScopedGet(after, t, m.id) == if m.active then Some(written) else None
      else
        reply == NotFound && after == docs
  {
    hide Put, Lookup;
    var stored := ScopedGet(docs, t, m.id);
    forall d | d in docs && d.id == m.id && d.active && d.tenant == Some(t) ensures stored == Some(d) {
      GetIff(docs, m.id, d);
    }
    if stored.Some? {
      GetIff(docs, m.id, stored.value);
      if m.id != "" {
        PutLookup(docs, m.(tenant := Some(t), updatedAt := now), m.id);
      }
    }
  }

  /** An insert is read back with the fields given, under its own id or the one drawn. */
  lemma InsertThenGet(docs: seq<Model>, t: string, m: Model, freshId: string)
    requires WellKeyed(docs) && freshId != ""
    ensures var (after, reply) := ScopedStep(docs, t, Insert(m, freshId));
      var written := m.(tenant := Some(t), id := if m.id == "" then freshId else m.id);
      && reply == Stored(written)
      && ScopedGet(after, t, written.id) == if m.active then Some(written) else None
  {
    var written := m.(tenant := Some(t), id := if m.id == "" then freshId else m.id);
    PutLookup(docs, written, written.id);
  }

  lemma StoredIdIsSet(docs: seq<Model>, m: Model)
    requires WellKeyed(docs) && m in docs
    ensures m.id != ""
  {
  }

  /** A delete reaches exactly an own active row, which then reads as missing and is kept as a tombstone. */
  lemma DeleteThenGet(docs: seq<Model>, t: string, id: string, now: real, user: Option<string>)
    requires WellKeyed(docs)
    ensures var (after, reply) := ScopedStep(docs, t, SoftDelete(id, now, user));
      var own := Lookup(docs, id);
      if own.Some? && own.value.active && own.value.tenant == Some(t) then
        && reply == Deleted(true) && ScopedGet(after, t, id).None?
        && Lookup(after, id) == Some(own.value.(
             active := false, updatedAt := now, updatedBy := if user.Some? then user else own.value.updatedBy))
      else
        reply == NotFound && after == docs
  {
    hide Put, Lookup;
    var own := Lookup(docs, id);
    if own.Some? && own.value.active && own.value.tenant == Some(t) {
      assert own.value.id != "" by { StoredIdIsSet(docs, own.value); }
      PutLookup(docs, own.value.Deactivated(now, user), id);
    }
  }

  // ---------- Where isolation depends on the caller ----------

  /** `insert` never checks who holds a known id.  Another tenant's rows stay as they were exactly
      when the id it writes is not held by another tenant. */
  lemma InsertLeavesOthersAloneIff(docs: seq<Model>, t: string, m: Model, freshId: string)
    requires WellKeyed(docs) && Keyed(m, freshId).id != ""
    ensures var stored := Keyed(Stamped(t, m), freshId);
      var held := Lookup(docs, stored.id);
      (forall u | u != t :: View(ScopedStep(docs, t, Insert(m, freshId)).0, u) == View(docs, u))
      <==> (held.None? || held.value.tenant.None? || Owns(t, held.value))
  {
    var stored := Keyed(Stamped(t, m), freshId);
    var held := Lookup(docs, stored.id);
    if held.None? || held.value.tenant.None? || Owns(t, held.value) {
      forall u | u != t ensures View(Put(docs, stored), u) == View(docs, u) { ViewPutOther(docs, u, stored); }
    } else {
      var u := held.value.tenant.value;
      PutLookup(docs, stored, stored.id);
      ViewLookup(Put(docs, stored), u, stored.id);
      ViewLookup(docs, u, stored.id);
      assert View(ScopedStep(docs, t, Insert(m, freshId)).0, u) != View(docs, u);
    }
  }

  // find_many: the backend's bounded lookup runs before the tenant filter.
  function ScopedFindMany(docs: seq<Model>, t: string, field: string, value: Value, limit: int): seq<Model> {
    if field == TENANT_ID_FIELD && value != Text(t) then []
    else Slice(OwnRows(t, FindMany(docs, field, value, limit)), 0, Bounded(limit))
  }

  function ScopedFindOne(docs: seq<Model>, t: string, field: string, value: Value): Option<Model> {
    if field == TENANT_ID_FIELD && value != Text(t) then None
    else
      var m := FindFirst(docs, field, value);
      if m.Some? && Owns(t, m.value) then m else None
  }

  lemma {:induction false} OwnRowsAppend(t: string, a: seq<Model>, b: seq<Model>)
    ensures OwnRows(t, a + b) == OwnRows(t, a) + OwnRows(t, b)
  {
    if a == [] {
      assert a + b == b;
    } else {
      OwnRowsAppend(t, a[1..], b);
      assert (a + b)[0] == a[0] && (a + b)[1..] == a[1..] + b;
      Associates(if a[0].active && Owns(t, a[0]) then [a[0]] else [], OwnRows(t, a[1..]), OwnRows(t, b));
    }
  }

  lemma {:induction false} OwnRowsOfSelect(docs: seq<Model>, t: string, filters: map<string, Value>)
    ensures OwnRows(t, Select(docs, filters)) == Select(View(docs, t), filters)
  {
    if docs != [] {
      OwnRowsOfSelect(docs[1..], t, filters);
      var head := if Listed(docs[0], filters) then [docs[0]] else [];
      OwnRowsAppend(t, head, Select(docs[1..], filters));
      if Owns(t, docs[0]) {
        assert View(docs, t)[1..] == View(docs[1..], t);
      } else {
        assert View(docs, t) == View(docs[1..], t);
      }
    }
  }

  lemma {:induction false} OwnRowsLength(t: string, rows: seq<Model>)
    ensures |OwnRows(t, rows)| <= |rows|
  {
    if rows != [] { OwnRowsLength(t, rows[1..]); }
  }

  lemma ForeignTenantLookupIsEmpty(docs: seq<Model>, t: string, value: Value)
    requires value != Text(t)
    ensures Select(View(docs, t), map[TENANT_ID_FIELD := value]) == []
  {
    forall m | m in View(docs, t) ensures Owns(t, m) { ViewMembers(docs, t, m); }
    NothingMatchesForeignTenant(View(docs, t), t, map[TENANT_ID_FIELD := value]);
  }

  lemma TruncatedPrefix<T>(seen: seq<T>, unseen: seq<T>, bound: nat)
    requires |seen| <= bound
    ensures Slice(seen, 0, bound) == seen <= Slice(seen + unseen, 0, bound)
    ensures seen == Slice(seen + unseen, 0, bound) <==> |seen| == bound || seen == seen + unseen
  {
    assert (seen + unseen)[..|seen|] == seen;
    if unseen != [] {
      assert |seen + unseen| > |seen|;
    }
  }

  lemma {:induction false} OwnRowsCount(t: string, rows: seq<Model>)
    requires forall m :: m in rows ==> m.active
    ensures |OwnRows(t, rows)| == |rows| <==> forall m :: m in rows ==> Owns(t, m)
    ensures OwnRows(t, rows) == [] <==> forall m :: m in rows ==> !Owns(t, m)
  {
    OwnRowsLength(t, rows);
    if rows != [] {
      assert rows[0] in rows;
      assert forall m :: m in rows <==> m == rows[0] || m in rows[1..];
      OwnRowsLength(t, rows[1..]);
      OwnRowsCount(t, rows[1..]);
    }
  }

  // The bound cut the listing after `seen`: nothing of this tenant's was lost to it when the rows seen are
  // all its own, or no row behind them is.
  ghost predicate BoundLosesNothing(t: string, seen: seq<Model>, unseen: seq<Model>) {
    (forall m :: m in seen ==> Owns(t, m)) || (forall m :: m in unseen ==> !Owns(t, m))
  }

  /** The scoped bounded lookup returns a prefix of what the private repository would, and all of it if and
      only if, of the matches of the whole collection, every one within the bound is an own row or none
      behind it is. */
  lemma FindManyIsAPrefix(docs: seq<Model>, t: string, field: string, value: Value, limit: int)
    ensures var scoped := ScopedFindMany(docs, t, field, value, limit);
      var exact := FindMany(View(docs, t), field, value, limit);
      var all := Select(docs, map[field := value]);
      var n := if Bounded(limit) <= |all| then Bounded(limit) else |all|;
      && scoped <= exact
      && (scoped == exact <==> BoundLosesNothing(t, all[..n], all[n..]))
  {
    hide Select, View, OwnRows;
    var filters := map[field := value];
    var all := Select(docs, filters);
    var n := if Bounded(limit) <= |all| then Bounded(limit) else |all|;
    OwnMatchesSplit(docs, t, filters, n);
    if field == TENANT_ID_FIELD && value != Text(t) {
      ForeignTenantLookupIsEmpty(docs, t, value);
    } else {
      OwnRowsLength(t, all[..n]);
      TruncatedPrefix(OwnRows(t, all[..n]), OwnRows(t, all[n..]), Bounded(limit));
      assert FindMany(docs, field, value, limit) == all[..n];
    }
  }

  lemma OwnMatchesSplit(docs: seq<Model>, t: string, filters: map<string, Value>, n: nat)
    requires n <= |Select(docs, filters)|
    ensures var all := Select(docs, filters);
      && Select(View(docs, t), filters) == OwnRows(t, all[..n]) + OwnRows(t, all[n..])
      && (|OwnRows(t, all[..n])| == n <==> forall m :: m in all[..n] ==> Owns(t, m))
      && (OwnRows(t, all[n..]) == [] <==> forall m :: m in all[n..] ==> !Owns(t, m))
  {
    hide Select, View, OwnRows;
    var all := Select(docs, filters);
    OwnRowsOfSelect(docs, t, filters);
    OwnRowsAppend(t, all[..n], all[n..]);
    assert all[..n] + all[n..] == all;
    forall m | m in all ensures m.active { SelectMembers(docs, filters, m); }
    OwnRowsCount(t, all[..n]);
    OwnRowsCount(t, all[n..]);
  }

  /** A foreign row can shadow an own match: `find_one` answers as the private repository would
      exactly when the first match of the whole collection is an own row or no own match exists. */
  lemma FindOneShadowedIff(docs: seq<Model>, t: string, field: string, value: Value)
    ensures var scoped := ScopedFindOne(docs, t, field, value);
      var exact := FindFirst(View(docs, t), field, value);
      var first := FindFirst(docs, field, value);
      && (scoped.Some? ==> scoped == exact)
      && (scoped == exact <==> exact.None? || (first.Some? && Owns(t, first.value)))
  {
    var filters := map[field := value];
    var all := Select(docs, filters);
    OwnRowsOfSelect(docs, t, filters);
    if field == TENANT_ID_FIELD && value != Text(t) {
      ForeignTenantLookupIsEmpty(docs, t, value);
    } else if all != [] {
      SelectMembers(docs, filters, all[0]);
    }
  }

  // ---------- The view object ----------

  class TenantScopedRepository {
    const inner: InMemoryRepository
    const tenant: string

    constructor (inner: InMemoryRepository, tenant: string)
      ensures this.inner == inner && this.tenant == tenant
    {
      this.inner := inner;
      this.tenant := tenant;
    }

    // Construction over an empty tenant fails instead of building an unscoped view.
    static method Bind(inner: InMemoryRepository, tenant: string) returns (r: Option<TenantScopedRepository>)
      ensures r.Some? <==> tenant != ""
      ensures r.Some? ==> r.value.inner == inner && r.value.tenant == tenant && fresh(r.value)
    {
      if tenant == "" {
        return None;
      }
      var view := new TenantScopedRepository(inner, tenant);
      r := Some(view);
    }

    method Insert(m: Model, freshId: string) returns (reply: Reply)
      requires WellKeyed(inner.docs) && freshId != ""
      modifies inner
      ensures (inner.docs, reply) == ScopedStep(old(inner.docs), tenant, Op.Insert(m, freshId))
      ensures WellKeyed(inner.docs)
    {
      var stamped := m.(tenant := Some(tenant));
      var stored := inner.Insert(stamped, freshId);
      reply := Stored(stored);
    }

    method Get(id: string) returns (r: Option<Model>)
      ensures r == ScopedGet(inner.docs, tenant, id)
    {
      r := inner.Get(id);
      if r.Some? && r.value.tenant != Some(tenant) {
        r := None;
      }
    }

    method ListWhere(filters: map<string, Value>, r: PageRequest) returns (page: Page)
      ensures page == ScopedList(inner.docs, tenant, filters, r)
      ensures page == ListDocs(View(inner.docs, tenant), filters, r)
    {
      ScopedListIsPrivate(inner.docs, tenant, filters, r);
      if TENANT_ID_FIELD in filters && filters[TENANT_ID_FIELD] != Text(tenant) {
        return Page([], 0, r.page, r.size);
      }
      var stamped := filters[TENANT_ID_FIELD := Text(tenant)];
      page := inner.ListWhere(stamped, r);
      page := Page(OwnRows(tenant, page.items), page.total, page.page, page.size);
    }

    method Update(m: Model, now: real) returns (reply: Reply)
      requires WellKeyed(inner.docs)
      modifies inner
      ensures (inner.docs, reply) == ScopedStep(old(inner.docs), tenant, Op.Update(m, now))
      ensures WellKeyed(inner.docs)
    {
      var stored := Get(m.id);
      if stored.None? {
        return NotFound;
      }
      var stamped := m.(tenant := Some(tenant));
      var updated := inner.Update(stamped, now);
      reply := if updated.Some? then Stored(updated.value) else NotFound;
    }

    method SoftDelete(id: string, now: real, user: Option<string>) returns (reply: Reply)
      requires WellKeyed(inner.docs)
      modifies inner
      ensures (inner.docs, reply) == ScopedStep(old(inner.docs), tenant, Op.SoftDelete(id, now, user))
      ensures WellKeyed(inner.docs)
    {
      var stored := Get(id);
      if stored.None? {
        return NotFound;
      }
      var deleted := inner.SoftDelete(id, now, user);
      reply := Deleted(deleted);
    }
  }
}
