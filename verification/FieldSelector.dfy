/** Field selectors: from a requirement's dotted path to the column or JSON path it is compared with. */
module FieldSelector {
  import opened Wrappers
  import opened Json
  import opened Model
  import opened ResourceVersion

  datatype Operator = EqualsOp | DoubleEqualsOp | NotEqualsOp | OtherOp

  /** One requirement of a field selector, as in "spec.node!=a". */
  datatype Requirement = Requirement(field: string, op: Operator, value: string)

  /** What a requirement compares: a key column, or column->'a'->...->>'z'. */
  datatype Column = NameColumn | NamespaceColumn | JsonColumn(column: string, path: seq<string>)

  /** strings.Split(s, "."). */
  function SplitDots(s: string): (parts: seq<string>)
    ensures parts != []
  {
    var dot := IndexOf(s, '.');
    if dot == |s| then [s] else [s[..dot]] + SplitDots(s[dot + 1..])
  }

  predicate IsWordStart(c: char) {
    'a' <= c <= 'z' || 'A' <= c <= 'Z' || c == '_'
  }

  /** ^[a-zA-Z_][a-zA-Z0-9_]*$ */
  predicate ValidSegment(seg: string) {
    seg != "" && IsWordStart(seg[0]) && forall c | c in seg :: IsWordStart(c) || IsDigit(c)
  }

  function JsonPath(column: string, path: string): Option<Column> {
    var segments := SplitDots(path);
    if forall i | 0 <= i < |segments| :: ValidSegment(segments[i]) then Some(JsonColumn(column, segments)) else None
  }

  /** fieldPathToSQL. */
  function ColumnOf(field: string): Option<Column> {
    var dot := IndexOf(field, '.');
    if dot == |field| then None
    else
      var root, rest := field[..dot], field[dot + 1..];
      if root == "metadata" then
        if rest == "name" then Some(NameColumn)
        else if rest == "namespace" then Some(NamespaceColumn)
        else JsonPath("metadata", rest)
      else if root == "spec" || root == "status" then JsonPath(root, rest)
      else None
  }

  /** A requirement in SQL's terms: column = value, or column != value. */
  datatype SqlField = SqlField(column: Column, negated: bool, value: string)

  /** fieldRequirementToSQL: an unsupported operator or path is an error. */
  function ToSql(f: Requirement): Option<SqlField> {
    var column := ColumnOf(f.field);
    if f.op.OtherOp? || column.None? then None else Some(SqlField(column.value, f.op.NotEqualsOp?, f.value))
  }

  /** The image of a sequence, if every element has one. */
  function Traverse<T, R>(f: T -> Option<R>, xs: seq<T>): (ys: Option<seq<R>>)
    ensures ys.Some? ==> |ys.value| == |xs|
  {
    if xs == [] then Some([])
    else
      var before, last := Traverse(f, xs[..|xs| - 1]), f(xs[|xs| - 1]);
      if before.None? || last.None? then None else Some(before.value + [last.value])
  }

  lemma {:induction false} TraverseExactly<T, R>(f: T -> Option<R>, xs: seq<T>)
    ensures Traverse(f, xs).Some? <==> forall i | 0 <= i < |xs| :: f(xs[i]).Some?
    ensures Traverse(f, xs).Some? ==> forall i | 0 <= i < |xs| :: f(xs[i]) == Some(Traverse(f, xs).value[i])
  {
    if xs != [] {
      TraverseExactly(f, xs[..|xs| - 1]);
    }
  }

  lemma TraverseOneMore<T, R>(f: T -> Option<R>, xs: seq<T>, i: nat, ys: seq<R>)
    requires i < |xs| && Traverse(f, xs[..i]) == Some(ys)
    ensures Traverse(f, xs[..i + 1]) == if f(xs[i]).None? then None else Some(ys + [f(xs[i]).value])
  {
    assert xs[..i + 1][..i] == xs[..i];
  }

  lemma {:induction false} TraversePrefix<T, R>(f: T -> Option<R>, xs: seq<T>, n: nat)
    requires n <= |xs| && Traverse(f, xs[..n]).None?
    ensures Traverse(f, xs).None?
    decreases |xs|
  {
    if n == |xs| {
      assert xs[..n] == xs;
    } else {
      assert xs[..|xs| - 1][..n] == xs[..n];
      TraversePrefix(f, xs[..|xs| - 1], n);
    }
  }

  /** A selector's requirements in order, if every one of them can be turned into SQL. */
  function ParseAll(fields: seq<Requirement>): Option<seq<SqlField>> {
    Traverse(ToSql, fields)
  }

  /** j -> 'a' -> ... ->> 'z'; SQL NULL for a missing key and for a JSON null. */
  function PathText(j: Json, path: seq<string>, render: Json -> string): Option<string>
    requires path != []
    decreases |path|
  {
    match Arrow(j, path[0])
    case None => None
    case Some(v) =>
      if |path| > 1 then PathText(v, path[1..], render)
      else if v.JsonNull? then None
      else if v.JsonString? then Some(v.s)
      else Some(render(v))
  }

  function TextOf(column: Column, render: Json -> string, k: Key, r: Row): Option<string> {
    match column
    case NameColumn => Some(k.name)
    case NamespaceColumn => Some(k.namespace)
    case JsonColumn(name, path) =>
      if path == [] then None
      else
        var json := if name == "spec" then r.spec else if name == "status" then r.status else r.metadata;
        PathText(json, path, render)
  }

  /** Comparing a missing field is not TRUE, whichever way. */
  predicate FieldHolds(f: SqlField, render: Json -> string, k: Key, r: Row) {
    match TextOf(f.column, render, k, r)
    case None => false
    case Some(stored) => if f.negated then stored != f.value else stored == f.value
  }

  /******* What a requirement means, written out *******/

  function JoinDots(parts: seq<string>): string
    requires parts != []
  {
    if |parts| == 1 then parts[0] else parts[0] + "." + JoinDots(parts[1..])
  }

  predicate IsIdentifier(seg: string) {
    && |seg| > 0
    && forall i | 0 <= i < |seg| ::
         || 'a' <= seg[i] <= 'z' || 'A' <= seg[i] <= 'Z' || seg[i] == '_'
         || (i > 0 && '0' <= seg[i] <= '9')
  }

  lemma ValidSegmentExactly(seg: string)
    ensures ValidSegment(seg) <==> IsIdentifier(seg)
    ensures ValidSegment(seg) ==> '.' !in seg
  {
    if ValidSegment(seg) {
      forall i | 0 <= i < |seg| ensures IsWordStart(seg[i]) || IsDigit(seg[i]) { assert seg[i] in seg; }
    }
  }

  lemma FirstDot(before: string, rest: string)
    requires '.' !in before
    ensures IndexOf(before + "." + rest, '.') == |before|
    ensures (before + "." + rest)[..|before|] == before && (before + "." + rest)[|before| + 1..] == rest
  {
    var s := before + "." + rest;
    forall j | 0 <= j < |before| ensures s[j] != '.' { assert s[j] in before; }
    FirstIndex(s, '.', |before|);
  }

  lemma NoDot(s: string)
    ensures '.' in s || IndexOf(s, '.') == |s|
  {
    var dot := IndexOf(s, '.');
    assert dot < |s| ==> s[dot] in s;
  }

  lemma {:induction false} SplitOfJoin(parts: seq<string>)
    requires parts != [] && forall i | 0 <= i < |parts| :: '.' !in parts[i]
    ensures SplitDots(JoinDots(parts)) == parts
  {
    if |parts| == 1 {
      NoDot(parts[0]);
    } else {
      FirstDot(parts[0], JoinDots(parts[1..]));
      SplitOfJoin(parts[1..]);
    }
  }

  lemma {:induction false} JoinOfSplit(s: string)
    ensures JoinDots(SplitDots(s)) == s
  {
    var dot := IndexOf(s, '.');
    if dot < |s| {
      JoinOfSplit(s[dot + 1..]);
      JoinFirst(s[..dot], SplitDots(s[dot + 1..]));
      assert s == s[..dot] + "." + s[dot + 1..];
    }
  }

  lemma JoinFirst(first: string, rest: seq<string>)
    requires rest != []
    ensures JoinDots([first] + rest) == first + "." + JoinDots(rest)
  {
    assert ([first] + rest)[1..] == rest;
  }

  /** Following a path of keys. */
  function Walk(j: Json, path: seq<string>): Option<Json> {
    if path == [] then Some(j)
    else
      var before := Walk(j, path[..|path| - 1]);
      if before.None? then None else Arrow(before.value, path[|path| - 1])
  }

  lemma {:induction false} WalkFromFirst(j: Json, path: seq<string>)
    requires path != []
    ensures Walk(j, path) == match Arrow(j, path[0]) case None => None case Some(v) => Walk(v, path[1..])
  {
    var n := |path| - 1;
    if n > 0 {
      WalkFromFirst(j, path[..n]);
      assert path[..n][1..] == path[1..][..n - 1];
    } else {
      assert Walk(j, path[..0]) == Some(j);
    }
  }

  /** ->> yields the text of what the path leads to: SQL NULL if it leads nowhere or to a JSON null. */
  lemma {:induction false} PathTextExactly(j: Json, path: seq<string>, render: Json -> string)
    requires path != []
    ensures PathText(j, path, render) == match Walk(j, path)
                                         case None => None
                                         case Some(JsonNull) => None
                                         case Some(JsonString(text)) => Some(text)
                                         case Some(v) => Some(render(v))
    decreases |path|
  {
    WalkFromFirst(j, path);
    match Arrow(j, path[0])
    case None =>
    case Some(v) => if |path| > 1 { PathTextExactly(v, path[1..], render); }
  }

  /** The fields that can be selected on: metadata, spec or status, and a path of identifiers. */
  ghost predicate IsPath(field: string, root: string, path: seq<string>) {
    && root in {"metadata", "spec", "status"}
    && path != [] && (forall i | 0 <= i < |path| :: IsIdentifier(path[i]))
    && field == root + "." + JoinDots(path)
  }

  lemma IdentifiersSplit(path: seq<string>)
    requires path != [] && forall i | 0 <= i < |path| :: IsIdentifier(path[i])
    ensures SplitDots(JoinDots(path)) == path && forall i | 0 <= i < |path| :: ValidSegment(path[i])
  {
    forall i | 0 <= i < |path| ensures ValidSegment(path[i]) && '.' !in path[i] { ValidSegmentExactly(path[i]); }
    SplitOfJoin(path);
  }

  lemma OneWord(path: seq<string>, word: string)
    requires path != [] && SplitDots(JoinDots(path)) == path && '.' !in word
    ensures JoinDots(path) == word <==> path == [word]
  {
    NoDot(word);
    assert SplitDots(word) == [word];
  }

  lemma PathColumn(field: string, root: string, path: seq<string>)
    requires IsPath(field, root, path)
    ensures ColumnOf(field) == Some(if root == "metadata" && path == ["name"] then NameColumn
                                    else if root == "metadata" && path == ["namespace"] then NamespaceColumn
                                    else JsonColumn(root, path))
  {
    FirstDot(root, JoinDots(path));
    IdentifiersSplit(path);
    OneWord(path, "name");
    OneWord(path, "namespace");
  }

  lemma NameIsSegment(rest: string)
    requires rest == "name" || rest == "namespace" || JsonPath("", rest).Some?
    ensures forall i | 0 <= i < |SplitDots(rest)| :: ValidSegment(SplitDots(rest)[i])
  {
    if rest == "name" || rest == "namespace" {
      NoDot(rest);
      assert SplitDots(rest) == [rest];
    }
  }

  lemma SegmentsAreIdentifiers(rest: string)
    requires rest == "name" || rest == "namespace" || JsonPath("", rest).Some?
    ensures forall i | 0 <= i < |SplitDots(rest)| :: IsIdentifier(SplitDots(rest)[i])
  {
    NameIsSegment(rest);
    forall i | 0 <= i < |SplitDots(rest)| ensures IsIdentifier(SplitDots(rest)[i]) {
      ValidSegmentExactly(SplitDots(rest)[i]);
    }
  }

  lemma ColumnHasPath(field: string)
    requires ColumnOf(field).Some?
    ensures exists root, path :: IsPath(field, root, path)
  {
    var dot := IndexOf(field, '.');
    var root, rest := field[..dot], field[dot + 1..];
    SegmentsAreIdentifiers(rest);
    JoinOfSplit(rest);
    assert field == root + "." + rest;
    assert IsPath(field, root, SplitDots(rest));
  }

  /** A requirement is translated exactly if its operator is one of =, == and != and its field is a path. */
  lemma TranslatedExactly(f: Requirement)
    ensures ToSql(f).Some? <==> !f.op.OtherOp? && exists root, path :: IsPath(f.field, root, path)
  {
    if root, path :| IsPath(f.field, root, path) {
      PathColumn(f.field, root, path);
    } else {
      if ColumnOf(f.field).Some? {
        ColumnHasPath(f.field);
      }
    }
  }

  /** The rows a translated requirement keeps: those whose name, namespace or text at the path is the value,
      or for != is there and is another. */
  lemma RequirementMeans(f: Requirement, root: string, path: seq<string>, render: Json -> string, k: Key, r: Row)
    requires !f.op.OtherOp? && IsPath(f.field, root, path)
    ensures var found := Walk(if root == "spec" then r.spec else if root == "status" then r.status else r.metadata, path);
            var text := if root == "metadata" && path == ["name"] then Some(k.name)
                        else if root == "metadata" && path == ["namespace"] then Some(k.namespace)
                        else if found.None? || found.value.JsonNull? then None
                        else Some(if found.value.JsonString? then found.value.s else render(found.value));
            && ToSql(f).Some?
            && (FieldHolds(ToSql(f).value, render, k, r)
                <==> text.Some? && (if f.op.NotEqualsOp? then text.value != f.value else text.value == f.value))
  {
    PathColumn(f.field, root, path);
    JsonColumnText(root, path, render, k, r);
  }

  lemma JsonColumnText(root: string, path: seq<string>, render: Json -> string, k: Key, r: Row)
    requires path != []
    ensures var found := Walk(if root == "spec" then r.spec else if root == "status" then r.status else r.metadata, path);
            TextOf(JsonColumn(root, path), render, k, r)
            == if found.None? || found.value.JsonNull? then None
               else Some(if found.value.JsonString? then found.value.s else render(found.value))
  {
    PathTextExactly(if root == "spec" then r.spec else if root == "status" then r.status else r.metadata, path, render);
  }
}
