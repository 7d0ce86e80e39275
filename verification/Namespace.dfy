/** Who sees which memory: the filter as it is evaluated in memory, the SQL predicate that is built for it, and
    the scoped queries that carry the predicate. */
module Namespace {
  import opened Basics
  import opened TextFormat
  import opened Items

  const NS_USER := "user"
  const NS_PROJECT := "project"
  const NS_LOCAL := "local"

  predicate IsValidNamespace(ns: string) {
    ns == "" || ns == NS_USER || ns == NS_PROJECT || ns == NS_LOCAL
  }

  /** An empty namespace filters nothing, an empty key does not narrow. */
  datatype Filter = Filter(namespace: string, key: string)

  predicate IsActive(f: Filter) {
    f.namespace != ""
  }

  predicate Visible(f: Filter, ns: string, key: string) {
    if !IsActive(f) then true
    else
      var keyOk := f.key == "" || key == f.key;
      if f.namespace == NS_USER then ns == NS_USER && keyOk
      else if f.namespace == NS_PROJECT then (ns == NS_PROJECT && keyOk) || ns == NS_USER
      else if f.namespace == NS_LOCAL then ns == NS_LOCAL && keyOk
      else false
  }

  /** A filter shows the rows of its own namespace, under its key if it has one; a project shows all of the user's rows
      as well; and only a filter without a namespace shows anything else. */
  lemma VisibleIff(f: Filter, ns: string, key: string)
    ensures Visible(f, ns, key)
            <==> || f.namespace == ""
                 || (&& (f.namespace == "user" || f.namespace == "project" || f.namespace == "local")
                     && ns == f.namespace && (f.key == "" || f.key == key))
                 || (f.namespace == "project" && ns == "user")
  {
  }

  // ---------------------------------------------------------------- conditions with placeholders

  datatype Column = NamespaceColumn | KeyColumn | TenantColumn | VectorRefColumn

  /** Placeholders count from 1 and stand for bound parameters. */
  datatype Test =
    | Live
    | Literal(column: Column, text: string)
    | Bound(column: Column, placeholder: nat)
    | OneOf(column: Column, first: nat, count: nat)

  /** What a filter adds to a statement: nothing, a test, two joined by AND, or those OR another test. */
  datatype Condition =
    | Always
    | One(test: Test)
    | Both(test: Test, second: Test)
    | OneOr(test: Test, other: Test)
    | BothOr(test: Test, second: Test, other: Test)

  function Value(row: MemoryItem, column: Column): string {
    match column
    case NamespaceColumn => row.namespace
    case KeyColumn => row.namespaceKey
    case TenantColumn => row.tenant
    case VectorRefColumn => row.vectorRef
  }

  /** Every placeholder has a parameter; the database refuses a statement otherwise. */
  predicate HasParameter(t: Test, bound: nat) {
    match t
    case Bound(_, i) => 1 <= i <= bound
    case OneOf(_, first, count) => 1 <= first && first + count - 1 <= bound
    case _ => true
  }

  predicate AllBound(c: Condition, bound: nat) {
    && (c.Always? || HasParameter(c.test, bound))
    && (c.Both? || c.BothOr? ==> HasParameter(c.second, bound))
    && (c.OneOr? || c.BothOr? ==> HasParameter(c.other, bound))
  }

  predicate Passes(t: Test, row: MemoryItem, params: seq<string>)
    requires HasParameter(t, |params|)
  {
    match t
    case Live => !row.tombstone
    case Literal(column, text) => Value(row, column) == text
    case Bound(column, i) => Value(row, column) == params[i - 1]
    case OneOf(column, first, count) =>
      exists i :: first - 1 <= i < first - 1 + count && Value(row, column) == params[i]
  }

  predicate Holds(c: Condition, row: MemoryItem, params: seq<string>)
    requires AllBound(c, |params|)
  {
    match c
    case Always => true
    case One(t) => Passes(t, row, params)
    case Both(t, u) => Passes(t, row, params) && Passes(u, row, params)
    case OneOr(t, other) => Passes(t, row, params) || Passes(other, row, params)
    case BothOr(t, u, other) => (Passes(t, row, params) && Passes(u, row, params)) || Passes(other, row, params)
  }

  datatype Clause = Clause(condition: Condition, keys: seq<string>)

  /** The condition for a filter and the parameters it needs, numbered from `base`. */
  function NsPredicate(f: Filter, base: nat): (r: Result<Clause, string>)
    ensures r.Ok? && base >= 1 ==> AllBound(r.value.condition, base + |r.value.keys| - 1)
  {
    if !IsActive(f) then Ok(Clause(Always, []))
    else if !IsValidNamespace(f.namespace) then Err(f.namespace)
    else if f.namespace == NS_USER then
      if f.key == "" then Ok(Clause(One(Literal(NamespaceColumn, NS_USER)), []))
      else Ok(Clause(Both(Literal(NamespaceColumn, NS_USER), Bound(KeyColumn, base)), [f.key]))
    else if f.namespace == NS_PROJECT then
      if f.key == "" then
        Ok(Clause(OneOr(Literal(NamespaceColumn, NS_PROJECT), Literal(NamespaceColumn, NS_USER)), []))
      else
        Ok(Clause(BothOr(Literal(NamespaceColumn, NS_PROJECT), Bound(KeyColumn, base),
                         Literal(NamespaceColumn, NS_USER)), [f.key]))
    else
      if f.key == "" then Ok(Clause(One(Literal(NamespaceColumn, NS_LOCAL)), []))
      else Ok(Clause(Both(Literal(NamespaceColumn, NS_LOCAL), Bound(KeyColumn, base)), [f.key]))
  }

  /** The two implementations agree wherever in a statement the condition is put; an unknown namespace is
      refused by one and sees nothing by the other. */
  lemma PredicateAgreesWithVisible(f: Filter, base: nat, before: seq<string>, row: MemoryItem)
    requires base == |before| + 1
    ensures NsPredicate(f, base).Err? <==> !IsValidNamespace(f.namespace)
    ensures NsPredicate(f, base).Err? ==> !Visible(f, row.namespace, row.namespaceKey)
    ensures NsPredicate(f, base).Ok? ==>
              var clause := NsPredicate(f, base).value;
              Holds(clause.condition, row, before + clause.keys) <==> Visible(f, row.namespace, row.namespaceKey)
  {
    if IsActive(f) && IsValidNamespace(f.namespace) && f.key != "" {
      assert (before + [f.key])[base - 1] == f.key;
    }
  }

  // ---------------------------------------------------------------- the scoped queries

  /** SELECT .. WHERE tombstone=0 AND tenant=?1 <predicate>, as the ids of the rows it answers. */
  function ListScoped(rows: Rows, tenant: string, f: Filter): Result<set<string>, string> {
    var clause := NsPredicate(f, 2);
    if clause.Err? then Err(clause.error)
    else
      var params := [tenant] + clause.value.keys;
      Ok(set id | id in rows && Passes(Live, rows[id], params) && Passes(Bound(TenantColumn, 1), rows[id], params)
                  && Holds(clause.value.condition, rows[id], params))
  }

  function Decimals(refs: seq<nat>): (texts: seq<string>)
    ensures |texts| == |refs|
  {
    seq(|refs|, i requires 0 <= i < |refs| => Decimal(refs[i]))
  }

  /** SELECT .. WHERE tombstone=0 AND tenant=?n+1 <predicate> AND vector_ref IN (?1..?n). */
  function GetByVectorRefs(rows: Rows, refs: seq<nat>, tenant: string, f: Filter): Result<set<string>, string> {
    var n := |refs|;
    var clause := NsPredicate(f, n + 2);
    if n == 0 then Ok({})
    else if clause.Err? then Err(clause.error)
    else
      var params := Decimals(refs) + [tenant] + clause.value.keys;
      Ok(set id | id in rows && Passes(Live, rows[id], params) && Passes(Bound(TenantColumn, n + 1), rows[id], params)
                  && Holds(clause.value.condition, rows[id], params)
                  && Passes(OneOf(VectorRefColumn, 1, n), rows[id], params))
  }

  predicate InScope(row: MemoryItem, tenant: string, f: Filter) {
    !row.tombstone && row.tenant == tenant && Visible(f, row.namespace, row.namespaceKey)
  }

  /** Listing answers exactly the tenant's live rows that the filter lets see. */
  lemma ListScopedIsExact(rows: Rows, tenant: string, f: Filter)
    ensures ListScoped(rows, tenant, f).Err? <==> !IsValidNamespace(f.namespace)
    ensures ListScoped(rows, tenant, f).Ok? ==>
              forall id :: id in ListScoped(rows, tenant, f).value
                           <==> && id in rows && !rows[id].tombstone && rows[id].tenant == tenant
                                && Visible(f, rows[id].namespace, rows[id].namespaceKey)
  {
    forall id | id in rows && NsPredicate(f, 2).Ok?
      ensures id in ListScoped(rows, tenant, f).value <==> InScope(rows[id], tenant, f)
    {
      PredicateAgreesWithVisible(f, 2, [tenant], rows[id]);
    }
  }

  lemma OneOfDecimals(refs: seq<nat>, tail: seq<string>, row: MemoryItem)
    ensures Passes(OneOf(VectorRefColumn, 1, |refs|), row, Decimals(refs) + tail)
            <==> exists v :: v in refs && row.vectorRef == Decimal(v)
  {
    var params := Decimals(refs) + tail;
    forall i | 0 <= i < |refs| ensures params[i] == Decimal(refs[i]) && refs[i] in refs {
    }
    if v :| v in refs && row.vectorRef == Decimal(v) {
      var i :| 0 <= i < |refs| && refs[i] == v;
      assert params[i] == Decimal(v);
    }
  }

  lemma OneRow(rows: Rows, refs: seq<nat>, tenant: string, f: Filter, id: string)
    requires id in rows && refs != [] && NsPredicate(f, |refs| + 2).Ok?
    ensures id in GetByVectorRefs(rows, refs, tenant, f).value
            <==> InScope(rows[id], tenant, f) && exists v :: v in refs && rows[id].vectorRef == Decimal(v)
  {
    var n := |refs|;
    var keys := NsPredicate(f, n + 2).value.keys;
    var before := Decimals(refs) + [tenant];
    PredicateAgreesWithVisible(f, n + 2, before, rows[id]);
    OneOfDecimals(refs, [tenant] + keys, rows[id]);
    assert before + keys == Decimals(refs) + ([tenant] + keys) && (before + keys)[n] == tenant;
  }

  /** A lookup by vector ids answers exactly the visible live rows of the tenant that refer to one of them. */
  lemma GetByVectorRefsIsExact(rows: Rows, refs: seq<nat>, tenant: string, f: Filter)
    ensures GetByVectorRefs(rows, refs, tenant, f).Err? <==> refs != [] && !IsValidNamespace(f.namespace)
    ensures GetByVectorRefs(rows, refs, tenant, f).Ok? ==>
              forall id :: id in GetByVectorRefs(rows, refs, tenant, f).value
                           <==> && id in rows && !rows[id].tombstone && rows[id].tenant == tenant
                                && Visible(f, rows[id].namespace, rows[id].namespaceKey)
                                && exists v :: v in refs && rows[id].vectorRef == Decimal(v)
  {
    if refs != [] && NsPredicate(f, |refs| + 2).Ok? {
      forall id | id in rows
        ensures id in GetByVectorRefs(rows, refs, tenant, f).value
                <==> InScope(rows[id], tenant, f) && exists v :: v in refs && rows[id].vectorRef == Decimal(v)
      {
        OneRow(rows, refs, tenant, f, id);
      }
    }
  }
}
