/** The client's List: how the query is put together, and how pages follow one another. */
module Paging {
  import opened Wrappers
  import opened Json
  import opened Model
  import opened Tombstone
  import opened Protocol
  import opened Snapshots
  import opened ResourceVersion
  import opened Watch
  import opened Agreement
  import opened Shard
  import opened FieldSelector

  /** What the columns yield: `render` is PostgreSQL's text of a JSON value that is not a string, `hash`
      is hashtext. */
  datatype Columns = Columns(render: Json -> string, hash: string -> int)

  /******* Queries with numbered placeholders *******/

  datatype Arg = Text(s: string) | Number(n: int) | Numbers(ns: seq<int>)

  /** A condition of the WHERE clause; each field is a placeholder number, counted from 1. */
  datatype Clause =
    | GvkIs(p: nat)
    | Shown                                  // the tombstone filter; no placeholder
    | NamespaceIs(p: nat)
    | FieldIs(column: Column, negated: bool, p: nat)
    | ShardOwned(modulus: nat, owned: nat)
    | StampAbove(p: nat)

  datatype Query = Query(clauses: seq<Clause>, args: seq<Arg>, limit: Option<nat>, offset: Option<nat>)

  function Bound(args: seq<Arg>, p: nat): Option<Arg> {
    if 1 <= p <= |args| then Some(args[p - 1]) else None
  }

  /** Is the condition TRUE of the row? A placeholder that is unbound, or bound to an argument of the
      wrong type, makes it fail. */
  predicate Satisfies(c: Clause, args: seq<Arg>, cols: Columns, k: Key, r: Row) {
    match c
    case GvkIs(p) => Bound(args, p) == Some(Text(k.gvk))
    case Shown => ListShows(r.deletionTs, r.metadata)
    case NamespaceIs(p) => Bound(args, p) == Some(Text(k.namespace))
    case FieldIs(column, negated, p) =>
      (match Bound(args, p)
       case Some(Text(value)) => FieldHolds(SqlField(column, negated, value), cols.render, k, r)
       case _ => false)
    case ShardOwned(modulus, owned) =>
      (match (Bound(args, modulus), Bound(args, owned))
       case (Some(Number(m)), Some(Numbers(residues))) => m > 0 && Residue(cols.hash(k.namespace), m) in residues
       case _ => false)
    case StampAbove(p) =>
      (match Bound(args, p)
       case Some(Number(n)) => r.stamp > n
       case _ => false)
  }

  predicate AllSatisfied(clauses: seq<Clause>, args: seq<Arg>, cols: Columns, k: Key, r: Row) {
    forall i | 0 <= i < |clauses| :: Satisfies(clauses[i], args, cols, k, r)
  }

  predicate Keeps(q: Query, cols: Columns, k: Key, r: Row) {
    AllSatisfied(q.clauses, q.args, cols, k, r)
  }

  /** Every placeholder of the clause is among the first n. */
  predicate Placed(c: Clause, n: nat) {
    match c
    case Shown => true
    case ShardOwned(modulus, owned) => 1 <= modulus <= n && 1 <= owned <= n
    case _ => 1 <= c.p <= n
  }

  /** Appending arguments binds no placeholder anew. */
  lemma MoreArgs(clauses: seq<Clause>, args: seq<Arg>, more: seq<Arg>, cols: Columns, k: Key, r: Row)
    requires forall i | 0 <= i < |clauses| :: Placed(clauses[i], |args|)
    ensures AllSatisfied(clauses, args + more, cols, k, r) <==> AllSatisfied(clauses, args, cols, k, r)
  {
    forall i | 0 <= i < |clauses|
      ensures Satisfies(clauses[i], args + more, cols, k, r) <==> Satisfies(clauses[i], args, cols, k, r)
    {
    }
  }

  lemma AllOfBoth(a: seq<Clause>, b: seq<Clause>, args: seq<Arg>, cols: Columns, k: Key, r: Row)
    ensures AllSatisfied(a + b, args, cols, k, r) <==> AllSatisfied(a, args, cols, k, r) && AllSatisfied(b, args, cols, k, r)
  {
    assert forall i | 0 <= i < |a| :: (a + b)[i] == a[i];
    assert forall i | 0 <= i < |b| :: (a + b)[|a| + i] == b[i];
  }

  /******* buildListFilter and List *******/

  /** A continue token: empty, an encoded offset, or a string that does not decode. The base64 and JSON
      coding of an offset is taken to be one to one. */
  datatype Token = NoToken | Offset(n: int) | Garbled

  datatype ListOptions = ListOptions(namespace: string, fields: seq<Requirement>, limit: int, token: Token)

  datatype Filter = Filter(clauses: seq<Clause>, args: seq<Arg>, limit: int, offset: int)

  function DecodeContinue(token: Token): Result<int, ()> {
    match token
    case NoToken => Ok(0)
    case Offset(n) => Ok(n)
    case Garbled => Err(())
  }

  /** The rows a namespace and field requirements ask for. */
  predicate Wanted(namespace: string, fields: seq<SqlField>, cols: Columns, k: Key, r: Row) {
    && (namespace == "" || k.namespace == namespace)
    && forall i | 0 <= i < |fields| :: FieldHolds(fields[i], cols.render, k, r)
  }

  /** The conditions, in a query whose $1 is the GVK, keep just those. */
  ghost predicate FilterMeans(clauses: seq<Clause>, args: seq<Arg>, namespace: string, fields: seq<SqlField>) {
    && (forall i | 0 <= i < |clauses| :: Placed(clauses[i], 1 + |args|))
    && forall gvk: string, cols: Columns, k, r ::
         AllSatisfied(clauses, [Text(gvk)] + args, cols, k, r) <==> Wanted(namespace, fields, cols, k, r)
  }

  lemma NamespaceFilter(namespace: string)
    ensures if namespace == "" then FilterMeans([], [], namespace, [])
            else FilterMeans([NamespaceIs(2)], [Text(namespace)], namespace, [])
  {
    if namespace != "" {
      forall gvk: string, cols: Columns, k, r
        ensures AllSatisfied([NamespaceIs(2)], [Text(gvk)] + [Text(namespace)], cols, k, r)
                <==> Wanted(namespace, [], cols, k, r)
      {
        var args := [Text(gvk)] + [Text(namespace)];
        assert [NamespaceIs(2)][0] == NamespaceIs(2) && args[1] == Text(namespace);
        assert Satisfies([NamespaceIs(2)][0], args, cols, k, r) <==> k.namespace == namespace;
      }
    }
  }

  function FieldClause(f: SqlField, p: nat): Clause {
    FieldIs(f.column, f.negated, p)
  }

  lemma WantedOneMore(namespace: string, fields: seq<SqlField>, field: SqlField, cols: Columns, k: Key, r: Row)
    ensures Wanted(namespace, fields + [field], cols, k, r)
            <==> Wanted(namespace, fields, cols, k, r) && FieldHolds(field, cols.render, k, r)
  {
    var more := fields + [field];
    assert more[|fields|] == field && forall i | 0 <= i < |fields| :: more[i] == fields[i];
  }

  lemma ExtendFilter(clauses: seq<Clause>, args: seq<Arg>, namespace: string, fields: seq<SqlField>, field: SqlField)
    requires FilterMeans(clauses, args, namespace, fields)
    ensures FilterMeans(clauses + [FieldClause(field, 2 + |args|)], args + [Text(field.value)],
                        namespace, fields + [field])
  {
    var added := FieldClause(field, 2 + |args|);
    forall gvk: string, cols: Columns, k, r
      ensures AllSatisfied(clauses + [added], [Text(gvk)] + (args + [Text(field.value)]), cols, k, r)
              <==> Wanted(namespace, fields + [field], cols, k, r)
    {
      var before, after := [Text(gvk)] + args, [Text(gvk)] + (args + [Text(field.value)]);
      assert after == before + [Text(field.value)];
      AllOfBoth(clauses, [added], after, cols, k, r);
      MoreArgs(clauses, before, [Text(field.value)], cols, k, r);
      assert [added][0] == added;
      assert AllSatisfied([added], after, cols, k, r) <==> Satisfies(added, after, cols, k, r);
      WantedOneMore(namespace, fields, field, cols, k, r);
    }
  }

  function FieldClauses(fields: seq<SqlField>, startParam: nat): (clauses: seq<Clause>)
    ensures |clauses| == |fields|
  {
    if fields == [] then []
    else
      var n := |fields| - 1;
      FieldClauses(fields[..n], startParam) + [FieldClause(fields[n], startParam + n)]
  }

  function FieldArgs(fields: seq<SqlField>): (args: seq<Arg>)
    ensures |args| == |fields|
  {
    if fields == [] then [] else FieldArgs(fields[..|fields| - 1]) + [Text(fields[|fields| - 1].value)]
  }

  /** buildFieldSelectorFilter: fails on the first requirement it cannot turn into SQL. */
  method BuildFieldSelectorFilter(fields: seq<Requirement>, startParam: nat)
    returns (res: Result<(seq<Clause>, seq<Arg>), ()>)
    ensures res == match ParseAll(fields)
                   case None => Err(())
                   case Some(parsed) => Ok((FieldClauses(parsed, startParam), FieldArgs(parsed)))
  {
    var clauses, args := [], [];
    var paramIdx := startParam;
    ghost var parsed: seq<SqlField> := [];
    for i := 0 to |fields|
      invariant Traverse(ToSql, fields[..i]) == Some(parsed) && paramIdx == startParam + |parsed|
      invariant clauses == FieldClauses(parsed, startParam) && args == FieldArgs(parsed)
    {
      TraverseOneMore(ToSql, fields, i, parsed);
      var field := ToSql(fields[i]);
      if field.None? {
        TraversePrefix(ToSql, fields, i + 1);
        return Err(());
      }
      FieldOneMore(parsed, field.value, startParam);
      clauses := clauses + [FieldIs(field.value.column, field.value.negated, paramIdx)];
      args := args + [Text(field.value.value)];
      paramIdx := paramIdx + 1;
      parsed := parsed + [field.value];
    }
    assert fields[..|fields|] == fields;
    res := Ok((clauses, args));
  }

  lemma FieldOneMore(fields: seq<SqlField>, field: SqlField, startParam: nat)
    ensures FieldClauses(fields + [field], startParam)
            == FieldClauses(fields, startParam) + [FieldClause(field, startParam + |fields|)]
    ensures FieldArgs(fields + [field]) == FieldArgs(fields) + [Text(field.value)]
  {
    assert (fields + [field])[..|fields|] == fields;
  }

  lemma {:induction false} FieldsExtendFilter(clauses: seq<Clause>, args: seq<Arg>, namespace: string,
                                              fields: seq<SqlField>)
    requires FilterMeans(clauses, args, namespace, [])
    ensures FilterMeans(clauses + FieldClauses(fields, 2 + |args|), args + FieldArgs(fields), namespace, fields)
  {
    var more, values := clauses + FieldClauses(fields, 2 + |args|), args + FieldArgs(fields);
    if fields == [] {
      assert more == clauses && values == args;
    } else {
      var n := |fields| - 1;
      var before, valuesBefore := clauses + FieldClauses(fields[..n], 2 + |args|), args + FieldArgs(fields[..n]);
      FieldsExtendFilter(clauses, args, namespace, fields[..n]);
      ExtendFilter(before, valuesBefore, namespace, fields[..n], fields[n]);
      assert more == before + [FieldClause(fields[n], 2 + |valuesBefore|)];
      assert values == valuesBefore + [Text(fields[n].value)];
      assert fields[..n] + [fields[n]] == fields;
    }
  }

  /** buildListFilter. None when the options ask for nothing. */
  method BuildListFilter(opts: ListOptions) returns (res: Result<Option<Filter>, ()>)
    ensures res.Err? <==> ParseAll(opts.fields).None? || (opts.limit > 0 && opts.token.Garbled?)
    ensures res == Ok(None) ==> opts.limit <= 0 && opts.namespace == "" && opts.fields == []
    ensures res.Ok? && res.value.Some? ==>
              var f := res.value.value;
              && FilterMeans(f.clauses, f.args, opts.namespace, ParseAll(opts.fields).value)
              && f.limit == (if opts.limit > 0 then opts.limit else 0)
              && f.offset == (if opts.limit > 0 then DecodeContinue(opts.token).value else 0)
    ensures opts.limit > 0 && res.Ok? ==> res.value.Some?
  {
    var clauses, args := [], [];
    var paramIdx := 2;
    if opts.namespace != "" {
      clauses, args := [NamespaceIs(paramIdx)], [Text(opts.namespace)];
      paramIdx := paramIdx + 1;
    }
    NamespaceFilter(opts.namespace);
    var fields := BuildFieldSelectorFilter(opts.fields, paramIdx);
    if fields.Err? {
      return Err(());
    }
    FieldsExtendFilter(clauses, args, opts.namespace, ParseAll(opts.fields).value);
    clauses, args := clauses + fields.value.0, args + fields.value.1;
    var limit, offset := 0, 0;
    if opts.limit > 0 {
      limit := opts.limit;
      var decoded := DecodeContinue(opts.token);
      if decoded.Err? {
        return Err(());
      }
      offset := decoded.value;
    }
    if limit == 0 && clauses == [] {
      return Ok(None);
    }
    res := Ok(Some(Filter(clauses, args, limit, offset)));
  }

  /** The query List sends. */
  function ListQuery(gvk: string, filter: Option<Filter>): Query {
    var clauses := [GvkIs(1), Shown];
    if filter.None? then Query(clauses, [Text(gvk)], None, None)
    else
      var f := filter.value;
      var args := [Text(gvk)] + f.args;
      if f.limit <= 0 then Query(clauses + f.clauses, args, None, None)
      else if f.offset <= 0 then Query(clauses + f.clauses, args + [Number(f.limit)], Some(|args| + 1), None)
      else Query(clauses + f.clauses, args + [Number(f.limit), Number(f.offset)], Some(|args| + 1), Some(|args| + 2))
  }

  /** Every placeholder of the client's query is bound to its own argument: the query keeps exactly the
      rows of the GVK that List shows and the options ask for, and LIMIT and OFFSET are the options'. */
  lemma ListQueryIsBound(gvk: string, namespace: string, fields: seq<SqlField>, f: Filter,
                         cols: Columns, k: Key, r: Row)
    requires FilterMeans(f.clauses, f.args, namespace, fields)
    ensures var q := ListQuery(gvk, Some(f));
            && (Keeps(q, cols, k, r)
                <==> k.gvk == gvk && ListShows(r.deletionTs, r.metadata) && Wanted(namespace, fields, cols, k, r))
            && (f.limit > 0 ==> q.limit.Some? && Bound(q.args, q.limit.value) == Some(Number(f.limit)))
            && (f.limit > 0 && f.offset > 0 ==> q.offset.Some? && Bound(q.args, q.offset.value) == Some(Number(f.offset)))
  {
    var q := ListQuery(gvk, Some(f));
    var base := [Text(gvk)] + f.args;
    assert q.args == base + q.args[|base|..];
    AllOfBoth([GvkIs(1), Shown], f.clauses, q.args, cols, k, r);
    MoreArgs(f.clauses, base, q.args[|base|..], cols, k, r);
    var fixed := [GvkIs(1), Shown];
    assert fixed[0] == GvkIs(1) && fixed[1] == Shown;
    assert Satisfies(fixed[0], q.args, cols, k, r) <==> k.gvk == gvk;
    assert Satisfies(fixed[1], q.args, cols, k, r) <==> ListShows(r.deletionTs, r.metadata);
  }

  /******* The informer's queries *******/

  /** ToListFilter: the shard predicate after $1. */
  function ToListFilter(shard: ShardSpec): Filter {
    Filter([ShardOwned(2, 3)], [Number(shard.modulus), Numbers(shard.owned)], 0, 0)
  }

  /** AppendQuery: placeholders numbered from the arguments already there. */
  function AppendQuery(shard: ShardSpec, q: Query): Query {
    q.(clauses := q.clauses + [ShardOwned(|q.args| + 1, |q.args| + 2)],
       args := q.args + [Number(shard.modulus), Numbers(shard.owned)])
  }

  function PollQuery(gvk: string, hwm: Xid, shard: Option<ShardSpec>): Query {
    var q := Query([GvkIs(1), StampAbove(2)], [Text(gvk), Number(hwm)], None, None);
    if shard.Some? then AppendQuery(shard.value, q) else q
  }

  /** List and poll of one informer, put together in different ways with different placeholder
      numbers, select by the same shard: what the List seeded is what the Watch maintains. */
  lemma InformerQueriesSelectTheShard(gvk: string, hwm: Xid, shard: Option<ShardSpec>, cols: Columns, k: Key, r: Row)
    ensures Keeps(PollQuery(gvk, hwm, shard), cols, k, r)
            <==> PollMatches(SelectorOf(gvk, shard, cols.hash), hwm)(k, r)
    ensures Keeps(ListQuery(gvk, if shard.Some? then Some(ToListFilter(shard.value)) else None), cols, k, r)
            <==> ListMatches(SelectorOf(gvk, shard, cols.hash))(k, r)
  {
    var poll := PollQuery(gvk, hwm, shard);
    var list := ListQuery(gvk, if shard.Some? then Some(ToListFilter(shard.value)) else None);
    var owns := Owner(shard, cols.hash)(k.namespace);
    assert poll.clauses[0] == GvkIs(1) && poll.clauses[1] == StampAbove(2);
    assert list.clauses[0] == GvkIs(1) && list.clauses[1] == Shown;
    if shard.Some? {
      assert poll.clauses[2] == ShardOwned(3, 4) && list.clauses[2] == ShardOwned(2, 3);
      assert Satisfies(poll.clauses[2], poll.args, cols, k, r) <==> owns;
      assert Satisfies(list.clauses[2], list.args, cols, k, r) <==> owns;
    }
    assert Keeps(poll, cols, k, r) <==> k.gvk == gvk && r.stamp > hwm && owns;
    assert Keeps(list, cols, k, r) <==> k.gvk == gvk && ListShows(r.deletionTs, r.metadata) && owns;
  }

  /******* Pages *******/

  /** What LIMIT and OFFSET leave of an ordered answer. */
  function Slice(all: seq<Found>, limit: int, offset: int): seq<Found> {
    var from := if offset <= 0 then 0 else if offset < |all| then offset else |all|;
    if 0 < limit < |all| - from then all[from..from + limit] else all[from..]
  }

  /** One page, before the label selector, and the token that goes with it. */
  datatype Page = Page(found: seq<Found>, next: Token)

  function PageOf(all: seq<Found>, limit: int, offset: int): Page {
    var found := Slice(all, limit, offset);
    Page(found, if |found| == limit then Offset(offset + limit) else NoToken)
  }

  datatype ListResult = ListResult(items: seq<Found>, resourceVersion: string, continueAt: Token)

  function Filtered(found: seq<Found>, selects: Row -> bool): seq<Found> {
    if found == [] then []
    else
      var last, before := found[|found| - 1], Filtered(found[..|found| - 1], selects);
      if selects(last.row) then before + [last] else before
  }

  /** `items` are the found rows at some rising positions, just those of the rows that are selected. */
  ghost predicate IsSelection(items: seq<Found>, found: seq<Found>, selects: Row -> bool) {
    exists at: seq<nat> :: IsSelectionAt(items, found, selects, at)
  }

  ghost predicate IsSelectionAt(items: seq<Found>, found: seq<Found>, selects: Row -> bool, at: seq<nat>) {
    && |at| == |items|
    && (forall i | 0 <= i < |at| :: at[i] < |found| && items[i] == found[at[i]])
    && (forall i, j | 0 <= i < j < |at| :: at[i] < at[j])
    && forall p: nat | p < |found| :: selects(found[p].row) <==> p in at
  }

  lemma SelectOneMore(items: seq<Found>, found: seq<Found>, selects: Row -> bool, at: seq<nat>, last: Found)
    requires IsSelectionAt(items, found, selects, at)
    ensures selects(last.row) ==> IsSelectionAt(items + [last], found + [last], selects, at + [|found|])
    ensures !selects(last.row) ==> IsSelectionAt(items, found + [last], selects, at)
  {
    var more := found + [last];
    assert forall i | 0 <= i < |found| :: more[i] == found[i];
    forall p: nat | p < |more| ensures selects(more[p].row) <==> p in (if selects(last.row) then at + [|found|] else at) {
      if p < |found| { assert selects(found[p].row) <==> p in at; }
    }
  }

  lemma SelectionOneMore(items: seq<Found>, found: seq<Found>, selects: Row -> bool, last: Found)
    requires IsSelection(items, found, selects)
    ensures IsSelection(if selects(last.row) then items + [last] else items, found + [last], selects)
  {
    var at :| IsSelectionAt(items, found, selects, at);
    SelectOneMore(items, found, selects, at, last);
  }

  lemma FilteredOneMore(found: seq<Found>, last: Found, selects: Row -> bool)
    ensures Filtered(found + [last], selects)
            == if selects(last.row) then Filtered(found, selects) + [last] else Filtered(found, selects)
  {
    assert (found + [last])[..|found|] == found;
  }

  lemma FilterOneMoreSelects(found: seq<Found>, last: Found, selects: Row -> bool)
    requires IsSelection(Filtered(found, selects), found, selects)
    ensures IsSelection(Filtered(found + [last], selects), found + [last], selects)
  {
    FilteredOneMore(found, last, selects);
    SelectionOneMore(Filtered(found, selects), found, selects, last);
  }

  lemma NothingSelected(selects: Row -> bool)
    ensures IsSelection([], [], selects)
  {
    assert IsSelectionAt([], [], selects, []);
  }

  lemma {:induction false} FilteredIsSelection(found: seq<Found>, selects: Row -> bool)
    ensures IsSelection(Filtered(found, selects), found, selects)
  {
    if found == [] {
      NothingSelected(selects);
    } else {
      var n := |found| - 1;
      FilteredIsSelection(found[..n], selects);
      FilterOneMoreSelects(found[..n], found[n], selects);
      assert found[..n] + [found[n]] == found;
    }
  }

  /** Any selection, however made, has just the selected rows, and is everything if all are selected. */
  lemma SelectionHas(items: seq<Found>, found: seq<Found>, selects: Row -> bool, f: Found)
    requires IsSelection(items, found, selects)
    ensures f in items <==> f in found && selects(f.row)
  {
    var at :| IsSelectionAt(items, found, selects, at);
    if f in items {
      var i :| 0 <= i < |items| && items[i] == f;
      assert at[i] in at && selects(found[at[i]].row);
    }
    if f in found && selects(f.row) {
      var p: nat :| p < |found| && found[p] == f;
      assert p in at;
      var i :| 0 <= i < |at| && at[i] == p;
      assert items[i] == f;
    }
  }

  /** A selector that matches everything keeps the page. */
  lemma {:induction false} FilteredAll(found: seq<Found>, selects: Row -> bool)
    requires forall i | 0 <= i < |found| :: selects(found[i].row)
    ensures Filtered(found, selects) == found
  {
    if found != [] {
      var n := |found| - 1;
      FilteredAll(found[..n], selects);
      FilteredOneMore(found[..n], found[n], selects);
      assert found[..n] + [found[n]] == found;
    }
  }

  /** What LIMIT and OFFSET leave: the rows from the offset on, at most the limit. */
  lemma SliceExactly(all: seq<Found>, limit: int, offset: int)
    requires limit > 0
    ensures var page := Slice(all, limit, offset);
            var skipped := if offset < 0 then 0 else offset;
            && |page| == (if skipped >= |all| then 0 else if |all| - skipped < limit then |all| - skipped else limit)
            && forall i | 0 <= i < |page| :: page[i] == all[skipped + i]
  {
  }

  /** The label selector keeps exactly the rows it matches, in order and as often as they occur. */
  method Select(page: seq<Found>, selects: Row -> bool) returns (items: seq<Found>)
    ensures items == Filtered(page, selects)
    ensures IsSelection(items, page, selects)
  {
    items := [];
    for i := 0 to |page|
      invariant items == Filtered(page[..i], selects)
    {
      assert page[..i + 1][..i] == page[..i];
      if selects(page[i].row) {
        items := items + [page[i]];
      }
    }
    assert page[..|page|] == page;
    FilteredIsSelection(page, selects);
  }

  /** pgClient.List once its query is built: `all` is PostgreSQL's ordered answer before LIMIT and
      OFFSET; the label selector is applied to what is left. */
  method List(tx: Snapshot, all: seq<Found>, limit: int, token: Token, selects: Row -> bool)
    returns (res: Result<ListResult, ()>)
    ensures res.Err? <==> limit > 0 && token.Garbled?
    ensures res.Ok? ==>
              var page := if limit > 0 then PageOf(all, limit, DecodeContinue(token).value) else Page(all, NoToken);
              && res.value.items == Filtered(page.found, selects)
              && res.value.continueAt == page.next
              && res.value.resourceVersion == String(RV(0, if tx.xmin > 0 then tx.xmin - 1 else 0))
    // the label selector keeps exactly the rows it matches, in order and as often as they occur
    ensures res.Ok? ==>
              var page := if limit > 0 then PageOf(all, limit, DecodeContinue(token).value).found else all;
              && IsSelection(res.value.items, page, selects)
              && (res.value.continueAt.NoToken? <==> limit <= 0 || |page| != limit)
              && (!res.value.continueAt.NoToken? ==>
                    res.value.continueAt == Offset(limit + if token.NoToken? then 0 else token.n))
  {
    var watermark := 0;
    if tx.xmin > 0 {
      watermark := tx.xmin - 1;
    }
    var page := all;
    if limit > 0 {
      var offset := DecodeContinue(token);
      if offset.Err? {
        return Err(());
      }
      page := Slice(all, limit, offset.value);
    }
    var items := Select(page, selects);
    var continueAt := NoToken;
    if limit > 0 && |page| == limit {
      continueAt := Offset(DecodeContinue(token).value + limit);
    }
    res := Ok(ListResult(items, String(RV(0, watermark)), continueAt));
  }

  /** The pages a client gets by following continue tokens over an unchanging table. */
  function Pages(all: seq<Found>, limit: nat, token: Token): seq<seq<Found>>
    requires limit > 0 && DecodeContinue(token).Ok? && DecodeContinue(token).value >= 0
    decreases |all| - DecodeContinue(token).value
  {
    var page := PageOf(all, limit, DecodeContinue(token).value);
    if page.next.NoToken? then [page.found] else [page.found] + Pages(all, limit, page.next)
  }

  function Concat(pages: seq<seq<Found>>): seq<Found> {
    if pages == [] then [] else pages[0] + Concat(pages[1..])
  }

  function FilteredPages(pages: seq<seq<Found>>, selects: Row -> bool): seq<seq<Found>> {
    if pages == [] then [] else [Filtered(pages[0], selects)] + FilteredPages(pages[1..], selects)
  }

  lemma OnePageLess(n: int, limit: int)
    requires limit > 0
    ensures n / limit == (n - limit) / limit + 1
  {
    var q, r := (n - limit) / limit, (n - limit) % limit;
    assert n == (q + 1) * limit + r;
    QuotientIsUnique(n, limit, q + 1, r);
  }

  lemma LastPage(all: seq<Found>, limit: nat, token: Token, offset: nat)
    requires limit > 0 && DecodeContinue(token) == Ok(offset) && offset <= |all|
    requires |all| - offset < limit
    ensures Pages(all, limit, token) == [all[offset..]]
    ensures (|all| - offset) / limit == 0
  {
    var left := |all| - offset;
    QuotientIsUnique(left, limit, 0, left);
  }

  lemma FullPage(all: seq<Found>, limit: nat, token: Token, offset: nat)
    requires limit > 0 && DecodeContinue(token) == Ok(offset) && offset <= |all| - limit
    ensures Pages(all, limit, token) == [all[offset..offset + limit]] + Pages(all, limit, Offset(offset + limit))
  {
    assert Slice(all, limit, offset) == all[offset..offset + limit];
  }

  lemma {:induction false} PageCountFrom(all: seq<Found>, limit: nat, token: Token, offset: nat)
    requires limit > 0 && DecodeContinue(token) == Ok(offset) && offset <= |all|
    ensures |Pages(all, limit, token)| == (|all| - offset) / limit + 1
    decreases |all| - offset
  {
    if limit <= |all| - offset {
      FullPage(all, limit, token, offset);
      PageCountFrom(all, limit, Offset(offset + limit), offset + limit);
      OnePageLess(|all| - offset, limit);
    } else {
      LastPage(all, limit, token, offset);
    }
  }

  lemma ConcatFirst(all: seq<Found>, i: nat, j: nat, rest: seq<seq<Found>>)
    requires i <= j <= |all| && Concat(rest) == all[j..]
    ensures Concat([all[i..j]] + rest) == all[i..]
  {
    assert ([all[i..j]] + rest)[1..] == rest;
    assert all[i..] == all[i..j] + all[j..];
  }

  lemma {:induction false} PagesFrom(all: seq<Found>, limit: nat, token: Token, offset: nat)
    requires limit > 0 && DecodeContinue(token) == Ok(offset) && offset <= |all|
    ensures Concat(Pages(all, limit, token)) == all[offset..]
    decreases |all| - offset
  {
    if limit <= |all| - offset {
      FullPage(all, limit, token, offset);
      PagesFrom(all, limit, Offset(offset + limit), offset + limit);
      ConcatFirst(all, offset, offset + limit, Pages(all, limit, Offset(offset + limit)));
    } else {
      LastPage(all, limit, token, offset);
      assert all[offset..] == all[offset..|all|];
      ConcatFirst(all, offset, |all|, []);
    }
  }

  lemma {:induction false} FilteredConcat(a: seq<Found>, b: seq<Found>, selects: Row -> bool)
    ensures Filtered(a + b, selects) == Filtered(a, selects) + Filtered(b, selects)
  {
    if b == [] {
      assert a + b == a;
    } else {
      var n := |b| - 1;
      assert (a + b)[..|a + b| - 1] == a + b[..n];
      FilteredConcat(a, b[..n], selects);
    }
  }

  lemma {:induction false} FilterCommutesWithPaging(pages: seq<seq<Found>>, selects: Row -> bool)
    ensures Concat(FilteredPages(pages, selects)) == Filtered(Concat(pages), selects)
    ensures |FilteredPages(pages, selects)| == |pages|
  {
    if pages != [] {
      FilterCommutesWithPaging(pages[1..], selects);
      FilteredConcat(pages[0], Concat(pages[1..]), selects);
      var filtered := FilteredPages(pages, selects);
      assert filtered[1..] == FilteredPages(pages[1..], selects);
    }
  }

  /** Following the tokens ends, after exactly n/limit + 1 pages, and the pages put together are the
      unpaged list, each row once and in order; also with the label selector applied page by page. */
  lemma PagingIsComplete(all: seq<Found>, limit: nat, selects: Row -> bool)
    requires limit > 0
    ensures var pages := Pages(all, limit, NoToken);
            && |pages| == |all| / limit + 1
            && Concat(pages) == all
            && Concat(FilteredPages(pages, selects)) == Filtered(all, selects)
  {
    PageCountFrom(all, limit, NoToken, 0);
    PagesFrom(all, limit, NoToken, 0);
    FilterCommutesWithPaging(Pages(all, limit, NoToken), selects);
    assert all[0..] == all;
  }

  /** The pages a client gets when query number i, as PostgreSQL answers it, is answers[i]. */
  function Followed(answers: seq<seq<Found>>, limit: nat, token: Token): seq<seq<Found>>
    requires limit > 0 && DecodeContinue(token).Ok? && DecodeContinue(token).value >= 0
    decreases |answers|
  {
    if answers == [] then []
    else
      var page := PageOf(answers[0], limit, DecodeContinue(token).value);
      [page.found] + if page.next.NoToken? then [] else Followed(answers[1..], limit, page.next)
  }

  lemma {:induction false} FollowedIsPages(answers: seq<seq<Found>>, all: seq<Found>, limit: nat, token: Token)
    requires limit > 0 && DecodeContinue(token).Ok? && DecodeContinue(token).value >= 0
    requires (forall i | 0 <= i < |answers| :: answers[i] == all) && |answers| >= |Pages(all, limit, token)|
    ensures Followed(answers, limit, token) == Pages(all, limit, token)
    decreases |answers|
  {
    var page := PageOf(all, limit, DecodeContinue(token).value);
    if page.next.NoToken? {
      assert Pages(all, limit, token) == [page.found];
    } else {
      FollowedIsPages(answers[1..], all, limit, page.next);
    }
  }

  /** Over an unchanging table every page can come from its own query: in a reachable state the query has
      one ordered answer, so pages never overlap, repeat or skip. */
  lemma TablePagingIsComplete(s: Db, matches: (Key, Row) -> bool, all: seq<Found>, answers: seq<seq<Found>>,
                              limit: nat, selects: Row -> bool)
    requires Inv(s) && limit > 0 && Answers(all, s.rows, matches)
    requires (forall i | 0 <= i < |answers| :: Answers(answers[i], s.rows, matches)) && |answers| > |all| / limit
    ensures var pages := Followed(answers, limit, NoToken);
            && |pages| == |all| / limit + 1
            && Concat(pages) == all
            && Concat(FilteredPages(pages, selects)) == Filtered(all, selects)
  {
    forall i | 0 <= i < |answers| ensures answers[i] == all {
      AnswerIsUnique(s, matches, answers[i], all);
    }
    PagingIsComplete(all, limit, selects);
    FollowedIsPages(answers, all, limit, NoToken);
  }
}
