/**
 * The message archive query of package history (history/query.go): a `Query`
 * becomes a <query xmlns='urn:xmpp:mam:2' queryid='...'/> element (the query
 * of XEP-0313) holding a submitted data form of filters (XEP-0004), one result
 * set management paging request (XEP-0059) and an optional <flip-page/>.
 *
 * The data form and paging elements are written by other packages; here they
 * stay whole nodes of the tree (`Submitted`, `RequestPrev`, `RequestNext`),
 * one token each in the token stream. A time is kept as the whole seconds its
 * RFC 3339 rendering in UTC shows, not as text.
 */
module History {
  import opened Results

  newtype u64 = x: int | 0 <= x < 0x1_0000_0000_0000_0000

  /** A `jid.JID`; the zero JID has every part empty. */
  datatype Jid = Jid(local: string, domain: string, resource: string)
  {
    predicate IsZero() { local == [] && domain == [] && resource == [] }
  }

  /** A `time.Time`, as whole seconds since Go's zero time (UTC) and the nanoseconds beyond them. */
  datatype Time = Time(seconds: int, nanos: nat)
  {
    predicate IsZero() { seconds == 0 && nanos == 0 }
  }

  const ZeroJid: Jid := Jid([], [], [])
  const ZeroTime: Time := Time(0, 0)

  /** The `Query` struct. */
  datatype Query = Query(
    id: string,
    with: Jid, start: Time, end: Time, beforeId: string, afterId: string, ids: seq<string>,
    limit: u64, last: bool, reverse: bool)

  /** The value of a form field: a JID, a text, a time rendered as RFC 3339 in
      UTC (its whole seconds), or a list of texts. */
  datatype Value = JidValue(jid: Jid) | TextValue(text: string) | TimeValue(seconds: int) | ListValue(items: seq<string>)

  datatype FieldKind = Hidden | JidSingle | TextSingle | ListMulti

  /** A form field: its type, its `var`, and its value once one is set. */
  datatype FormField = FormField(kind: FieldKind, name: string, value: Option<Value>)

  /** An XML name and attribute. */
  datatype Name = Name(space: string, local: string)
  datatype Attr = Attr(name: Name, value: string)

  /** The element tree a token reader produces. `Submitted` is the submitted data
      form; `RequestPrev` and `RequestNext` are the paging requests. */
  datatype Node =
    | Element(name: Name, attrs: seq<Attr>, children: seq<Node>)
    | Submitted(fields: seq<FormField>)
    | RequestPrev(max: u64)
    | RequestNext(max: u64)

  /** `NS`, the namespace of the message archive. Its declaration is not part
      of this model; the value is the one history/history.go:42 spells out. */
  const NS: string := "urn:xmpp:mam:2"

  const FieldFormType: string := "FORM_TYPE"
  const FieldWith: string := "with"
  const FieldStart: string := "start"
  const FieldEnd: string := "end"
  const FieldAfter: string := "after-id"
  const FieldBefore: string := "before-id"
  const FieldIds: string := "ids"

  const QueryName: Name := Name(NS, "query")
  const QueryIdName: Name := Name([], "queryid")
  const FlipPage: Node := Element(Name([], "flip-page"), [], [])

  /** The fields `form.New` declares, in order, none of them set but FORM_TYPE. */
  const DeclaredFields: seq<FormField> := [
    FormField(Hidden, FieldFormType, Some(TextValue(NS))),
    FormField(JidSingle, FieldWith, None),
    FormField(TextSingle, FieldStart, None),
    FormField(TextSingle, FieldEnd, None),
    FormField(TextSingle, FieldAfter, None),
    FormField(TextSingle, FieldBefore, None),
    FormField(ListMulti, FieldIds, None)]

  /** The fields with the value of the first one called `name` set to `v`. */
  function SetField(fields: seq<FormField>, name: string, v: Value): seq<FormField>
  {
    if fields == [] then []
    else if fields[0].name == name then [fields[0].(value := Some(v))] + fields[1..]
    else [fields[0]] + SetField(fields[1..], name, v)
  }

  /** Setting a value keeps every field's type and name where it was. */
  lemma {:induction false} SetFieldShape(fields: seq<FormField>, name: string, v: Value)
    ensures var r := SetField(fields, name, v);
      && |r| == |fields|
      && forall i :: 0 <= i < |r| ==> r[i].kind == fields[i].kind && r[i].name == fields[i].name
  {
    if fields != [] && fields[0].name != name {
      SetFieldShape(fields[1..], name, v);
    }
  }

  /** The value of the first field called `name`, if there is one and it is set. */
  function FieldValue(fields: seq<FormField>, name: string): Option<Value>
  {
    if fields == [] then None
    else if fields[0].name == name then fields[0].value
    else FieldValue(fields[1..], name)
  }

  lemma {:induction false} SetFieldValue(fields: seq<FormField>, name: string, v: Value, other: string)
    requires exists i :: 0 <= i < |fields| && fields[i].name == name
    ensures FieldValue(SetField(fields, name, v), name) == Some(v)
    ensures other != name ==> FieldValue(SetField(fields, name, v), other) == FieldValue(fields, other)
  {
    if fields[0].name != name {
      var i :| 0 <= i < |fields| && fields[i].name == name;
      assert fields[1..][i - 1].name == name;
      SetFieldValue(fields[1..], name, v, other);
    }
  }

  /** The declared fields carry different names. */
  lemma DeclaredNamesDistinct()
    ensures forall i, j :: 0 <= i < j < |DeclaredFields| ==> DeclaredFields[i].name != DeclaredFields[j].name
  {
    assert FieldFormType[0] != FieldBefore[0];
    assert FieldEnd[0] != FieldIds[0];
  }

  /** `d.Set(name, v)` when `isSet`, nothing otherwise: one guarded call of `TokenReader`. */
  function SetIf(fields: seq<FormField>, isSet: bool, name: string, v: Value): seq<FormField>
  {
    if isSet then SetField(fields, name, v) else fields
  }

  /** A guarded set of a field that is there keeps every name in place, gives
      the field its value when it happens, and leaves every other field's value alone. */
  lemma SetIfValues(fields: seq<FormField>, isSet: bool, name: string, v: Value, k: nat)
    requires k < |fields| && fields[k].name == name
    ensures var r := SetIf(fields, isSet, name, v);
      && |r| == |fields| && (forall i :: 0 <= i < |r| ==> r[i].name == fields[i].name)
      && FieldValue(r, name) == (if isSet then Some(v) else FieldValue(fields, name))
      && forall other :: other != name ==> FieldValue(r, other) == FieldValue(fields, other)
  {
    if isSet {
      SetFieldShape(fields, name, v);
      forall other | other != name
        ensures FieldValue(SetField(fields, name, v), other) == FieldValue(fields, other)
      {
        SetFieldValue(fields, name, v, other);
      }
      SetFieldValue(fields, name, v, name);
    }
  }

  /** The `form.Data` being filled in: its fields, which `Set` updates in place. */
  class DataForm {
    var fields: seq<FormField>

    /** `form.New(fields...)`. */
    constructor (fields: seq<FormField>)
      ensures this.fields == fields
    {
      this.fields := fields;
    }

    /** `d.Set(name, v)`: sets the value of the field called `name`; reports whether there is one. */
    method Set(name: string, v: Value) returns (ok: bool)
      modifies this
      ensures fields == SetField(old(fields), name, v)
      ensures ok == exists i :: 0 <= i < |fields| && fields[i].name == name
    {
      fields := SetField(fields, name, v);
      ok := exists i :: 0 <= i < |fields| && fields[i].name == name;
    }
  }

  function TimeText(t: Time): Option<Value>
  {
    if t.IsZero() then None else Some(TimeValue(t.seconds))
  }

  function TextOf(s: string): Option<Value>
  {
    if s == [] then None else Some(TextValue(s))
  }

  /** Whether `TokenReader` sets the `k`-th declared field (1 to 6): the filter is not empty. */
  function Guard(q: Query, k: nat): bool
  {
    match k
    case 1 => !q.with.IsZero()
    case 2 => !q.start.IsZero()
    case 3 => !q.end.IsZero()
    case 4 => q.afterId != []
    case 5 => q.beforeId != []
    case _ => |q.ids| > 0
  }

  /** The value `TokenReader` gives the `k`-th declared field (1 to 6). */
  function Filter(q: Query, k: nat): Value
  {
    match k
    case 1 => JidValue(q.with)
    case 2 => TimeValue(q.start.seconds)
    case 3 => TimeValue(q.end.seconds)
    case 4 => TextValue(q.afterId)
    case 5 => TextValue(q.beforeId)
    case _ => ListValue(q.ids)
  }

  /** The field the `k`-th guarded set of `TokenReader` (1 to 6) sets. */
  function FilterName(k: nat): string
  {
    match k
    case 1 => FieldWith
    case 2 => FieldStart
    case 3 => FieldEnd
    case 4 => FieldAfter
    case 5 => FieldBefore
    case _ => FieldIds
  }

  /** The declared fields after the first `k` guarded sets of `TokenReader`. */
  function Stage(q: Query, k: nat): seq<FormField>
    requires k <= 6
  {
    if k == 0 then DeclaredFields
    else SetIf(Stage(q, k - 1), Guard(q, k), FilterName(k), Filter(q, k))
  }

  /** The fields of the filter form of `q`: the declared fields after all six guarded sets. */
  function FilterFields(q: Query): seq<FormField>
  {
    Stage(q, 6)
  }

  function Paging(q: Query): Node
  {
    if q.last then RequestPrev(q.limit) else RequestNext(q.limit)
  }

  /** The element `q.TokenReader()` reads out. */
  function QueryElement(q: Query): Node
  {
    Element(QueryName, [Attr(QueryIdName, q.id)],
      [Submitted(FilterFields(q)), Paging(q)] + (if q.reverse then [FlipPage] else []))
  }

  /** The data form of `q.TokenReader()` (history/query.go:53-85): the declared
      fields, then one conditional `Set` per filter. */
  method NewFilterForm(q: Query) returns (dataForm: DataForm)
    ensures fresh(dataForm)
    ensures dataForm.fields == FilterFields(q)
  {
    dataForm := new DataForm(DeclaredFields);
    var ok;
    if !q.with.IsZero() {
      ok := dataForm.Set(FieldWith, JidValue(q.with));
    }
    assert dataForm.fields == Stage(q, 1);
    if !q.start.IsZero() {
      ok := dataForm.Set(FieldStart, TimeValue(q.start.seconds));
    }
    assert dataForm.fields == Stage(q, 2);
    if !q.end.IsZero() {
      ok := dataForm.Set(FieldEnd, TimeValue(q.end.seconds));
    }
    assert dataForm.fields == Stage(q, 3);
    if q.afterId != [] {
      ok := dataForm.Set(FieldAfter, TextValue(q.afterId));
    }
    assert dataForm.fields == Stage(q, 4);
    if q.beforeId != [] {
      ok := dataForm.Set(FieldBefore, TextValue(q.beforeId));
    }
    assert dataForm.fields == Stage(q, 5);
    if |q.ids| > 0 {
      ok := dataForm.Set(FieldIds, ListValue(q.ids));
    }
  }

  /** `q.TokenReader()` (history/query.go:52-113): the filter form, then the
      paging request and an optional flip-page, wrapped in the query element. */
  method TokenReader(q: Query) returns (r: Node)
    ensures r == QueryElement(q)
  {
    var dataForm := NewFilterForm(q);
    var filter := Submitted(dataForm.fields);
    var inner := [filter];
    if q.last {
      inner := inner + [RequestPrev(q.limit)];
    } else {
      inner := inner + [RequestNext(q.limit)];
    }
    if q.reverse {
      inner := inner + [FlipPage];
    }
    r := Element(QueryName, [Attr(QueryIdName, q.id)], inner);
  }

  /** The children of a query element. */
  function Children(n: Node): seq<Node>
  {
    if n.Element? then n.children else []
  }

  /** Before any set, only FORM_TYPE has a value. */
  lemma DeclaredValue(k: nat)
    requires k < |DeclaredFields|
    ensures FieldValue(DeclaredFields, DeclaredFields[k].name) == DeclaredFields[k].value
  {
    DeclaredNamesDistinct();
    FieldValueSkip(DeclaredFields, k, DeclaredFields[k].name);
  }

  lemma {:induction false} FieldValueSkip(fields: seq<FormField>, k: nat, name: string)
    requires k < |fields| && fields[k].name == name
    requires forall j :: 0 <= j < k ==> fields[j].name != name
    ensures FieldValue(fields, name) == fields[k].value
  {
    if k > 0 {
      FieldValueSkip(fields[1..], k - 1, name);
    }
  }

  /** After `k` guarded sets, every declared field keeps its name and place. */
  lemma {:induction false} StageShape(q: Query, k: nat)
    requires k <= 6
    ensures |Stage(q, k)| == |DeclaredFields|
    ensures forall i :: 0 <= i < |DeclaredFields| ==> Stage(q, k)[i].name == DeclaredFields[i].name
  {
    if k > 0 {
      StageShape(q, k - 1);
      SetIfValues(Stage(q, k - 1), Guard(q, k), FilterName(k), Filter(q, k), k);
    }
  }

  /** The `k`-th guarded set changes the `k`-th field's value only. */
  lemma StageStep(q: Query, k: nat, j: nat)
    requires 0 < k <= 6 && j < |DeclaredFields|
    ensures FieldValue(Stage(q, k), DeclaredFields[j].name)
         == if j == k && Guard(q, k) then Some(Filter(q, k)) else FieldValue(Stage(q, k - 1), DeclaredFields[j].name)
  {
    StageShape(q, k - 1);
    FilterNameDeclared(k);
    SetIfValues(Stage(q, k - 1), Guard(q, k), FilterName(k), Filter(q, k), k);
    if j != k {
      DeclaredNamesDiffer(j, k);
    }
  }

  /** The `k`-th guarded set sets the `k`-th declared field. */
  lemma FilterNameDeclared(k: nat)
    requires 0 < k <= 6
    ensures FilterName(k) == DeclaredFields[k].name
  {
  }

  lemma DeclaredNamesDiffer(i: nat, j: nat)
    requires i < |DeclaredFields| && j < |DeclaredFields| && i != j
    ensures DeclaredFields[i].name != DeclaredFields[j].name
  {
    DeclaredNamesDistinct();
    if i > j {
      assert DeclaredFields[j].name != DeclaredFields[i].name;
    }
  }

  /** After `k` guarded sets, the `j`-th declared field holds its filter if it
      is among the first `k` and its guard held, and its declared value otherwise. */
  lemma {:induction false} StageValue(q: Query, k: nat, j: nat)
    requires k <= 6 && j < |DeclaredFields|
    ensures FieldValue(Stage(q, k), DeclaredFields[j].name)
         == if 1 <= j <= k && Guard(q, j) then Some(Filter(q, j)) else DeclaredFields[j].value
  {
    if k == 0 {
      DeclaredValue(j);
    } else {
      StageValue(q, k - 1, j);
      StageStep(q, k, j);
    }
  }

  /** Each filter field of `q` is set exactly when the query's filter is not
      empty, and then holds that filter; FORM_TYPE holds the namespace. */
  lemma FilterFieldValues(q: Query)
    ensures var fields := FilterFields(q);
      && FieldValue(fields, FieldFormType) == Some(TextValue(NS))
      && FieldValue(fields, FieldWith) == (if q.with.IsZero() then None else Some(JidValue(q.with)))
      && FieldValue(fields, FieldStart) == TimeText(q.start)
      && FieldValue(fields, FieldEnd) == TimeText(q.end)
      && FieldValue(fields, FieldAfter) == TextOf(q.afterId)
      && FieldValue(fields, FieldBefore) == TextOf(q.beforeId)
      && FieldValue(fields, FieldIds) == (if q.ids == [] then None else Some(ListValue(q.ids)))
  {
    StageValue(q, 6, 0);
    StageValue(q, 6, 1);
    StageValue(q, 6, 2);
    StageValue(q, 6, 3);
    StageValue(q, 6, 4);
    StageValue(q, 6, 5);
    StageValue(q, 6, 6);
  }

  /** The element holds the filter form, then the paging request `Last` picks,
      then a flip-page exactly when `Reverse` is set. */
  lemma QueryElementShape(q: Query)
    ensures var n := QueryElement(q);
      && n.name == QueryName && n.attrs == [Attr(QueryIdName, q.id)]
      && Children(n)[0] == Submitted(FilterFields(q))
      && (Children(n)[1] == RequestPrev(q.limit) <==> q.last)
      && (Children(n)[1] == RequestNext(q.limit) <==> !q.last)
      && |Children(n)| == (if q.reverse then 3 else 2)
      && (q.reverse ==> Children(n)[2] == FlipPage)
  {
  }

  /** The query as the form can carry it: times cut to whole seconds. */
  function Normalize(q: Query): Query
  {
    q.(start := Time(q.start.seconds, 0), end := Time(q.end.seconds, 0))
  }

  function ReadTime(v: Option<Value>): Option<Time>
  {
    match v
    case None => Some(ZeroTime)
    case Some(TimeValue(s)) => Some(Time(s, 0))
    case Some(_) => None
  }

  function ReadText(v: Option<Value>): Option<string>
  {
    match v
    case None => Some([])
    case Some(TextValue(s)) => Some(s)
    case Some(_) => None
  }

  /** How an archive reads the filter form back, field by name: a missing or
      unset field is an empty filter. */
  function ReadFilters(fields: seq<FormField>): Option<(Jid, Time, Time, string, string, seq<string>)>
  {
    var with := match FieldValue(fields, FieldWith)
      case None => Some(ZeroJid) case Some(JidValue(j)) => Some(j) case Some(_) => None;
    var start, end := ReadTime(FieldValue(fields, FieldStart)), ReadTime(FieldValue(fields, FieldEnd));
    var after, before := ReadText(FieldValue(fields, FieldAfter)), ReadText(FieldValue(fields, FieldBefore));
    var ids := match FieldValue(fields, FieldIds)
      case None => Some([]) case Some(ListValue(l)) => Some(l) case Some(_) => None;
    if FieldValue(fields, FieldFormType) != Some(TextValue(NS))
      || with.None? || start.None? || end.None? || after.None? || before.None? || ids.None?
    then None
    else Some((with.value, start.value, end.value, after.value, before.value, ids.value))
  }

  /** How an archive reads a query element: the query it asks for, if well formed. */
  function Interpret(n: Node): Option<Query>
  {
    if !n.Element? || n.name != QueryName || |n.attrs| != 1 || n.attrs[0].name != QueryIdName
      || !(|n.children| == 2 || (|n.children| == 3 && n.children[2] == FlipPage))
      || !n.children[0].Submitted? || n.children[1].Element? || n.children[1].Submitted?
    then None
    else
      var filters := ReadFilters(n.children[0].fields);
      if filters.None? then None
      else
        var (with, start, end, after, before, ids) := filters.value;
        Some(Query(n.attrs[0].value, with, start, end, before, after, ids,
                   n.children[1].max, n.children[1].RequestPrev?, |n.children| == 3))
  }

  /** An archive reading the element recovers the query, times cut to whole seconds. */
  lemma InterpretQueryElement(q: Query)
    ensures Interpret(QueryElement(q)) == Some(Normalize(q))
  {
    FilterFieldValues(q);
  }

  /** Two queries that give the same element agree up to whole seconds. */
  lemma QueryElementInjective(a: Query, b: Query)
    requires QueryElement(a) == QueryElement(b)
    ensures Normalize(a) == Normalize(b)
  {
    InterpretQueryElement(a);
    InterpretQueryElement(b);
  }

  /** An XML token as a token reader hands it out. The data form and paging
      elements come from other packages and stay one `Embedded` token each. */
  datatype Token = Start(name: Name, attrs: seq<Attr>) | End(name: Name) | Embedded(node: Node)

  /** The tokens a reader of `n` produces: an element is its start token, its
      children's tokens and its end token. */
  function Tokens(n: Node): seq<Token>
    decreases n, 1
  {
    match n
    case Element(name, attrs, children) => [Start(name, attrs)] + TokensOf(children) + [End(name)]
    case _ => [Embedded(n)]
  }

  /** `xmlstream.MultiReader`: the tokens of each node in turn. */
  function TokensOf(ns: seq<Node>): seq<Token>
    decreases ns, 0
  {
    if ns == [] then [] else Tokens(ns[0]) + TokensOf(ns[1..])
  }

  /** How a decoder reads one node back from a token stream, with the tokens left over. */
  function ParseNode(ts: seq<Token>): (r: Option<(Node, seq<Token>)>)
    ensures r.Some? ==> |r.value.1| < |ts|
    decreases |ts|, 0
  {
    if ts == [] then None
    else match ts[0]
      case Embedded(n) => Some((n, ts[1..]))
      case End(_) => None
      case Start(name, attrs) =>
        match ParseNodes(ts[1..])
        case None => None
        case Some((children, rest)) =>
          if rest != [] && rest[0] == End(name) then Some((Element(name, attrs, children), rest[1..]))
          else None
  }

  /** Reads nodes up to the end token of the enclosing element (or the end of the stream). */
  function ParseNodes(ts: seq<Token>): (r: Option<(seq<Node>, seq<Token>)>)
    ensures r.Some? ==> |r.value.1| <= |ts|
    decreases |ts|, 1
  {
    if ts == [] || ts[0].End? then Some(([], ts))
    else match ParseNode(ts)
      case None => None
      case Some((n, rest)) =>
        match ParseNodes(rest)
        case None => None
        case Some((ns, rest')) => Some(([n] + ns, rest'))
  }

  /** Reading a node's tokens back gives the node and leaves what follows them. */
  lemma {:induction false} ParseTokens(n: Node, rest: seq<Token>)
    ensures ParseNode(Tokens(n) + rest) == Some((n, rest))
    decreases n, 1
  {
    if n.Element? {
      var inner := TokensOf(n.children);
      var tail := [End(n.name)] + rest;
      assert Tokens(n) + rest == [Start(n.name, n.attrs)] + (inner + tail);
      ParseTokensOf(n.children, tail);
    } else {
      assert (Tokens(n) + rest)[1..] == rest;
    }
  }

  /** Reading the tokens of a sequence of nodes back, up to an end token, gives the nodes. */
  lemma {:induction false} ParseTokensOf(ns: seq<Node>, rest: seq<Token>)
    requires rest == [] || rest[0].End?
    ensures ParseNodes(TokensOf(ns) + rest) == Some((ns, rest))
    decreases ns, 0
  {
    if ns == [] {
      assert TokensOf(ns) + rest == rest;
    } else {
      var ts := TokensOf(ns) + rest;
      assert ts == Tokens(ns[0]) + (TokensOf(ns[1..]) + rest);
      FirstToken(ns[0]);
      ParseTokens(ns[0], TokensOf(ns[1..]) + rest);
      ParseTokensOf(ns[1..], rest);
      assert [ns[0]] + ns[1..] == ns;
    }
  }

  /** A node's tokens never open with an end token. */
  lemma FirstToken(n: Node)
    ensures |Tokens(n)| > 0 && !Tokens(n)[0].End?
  {
  }

  /** Different nodes give different token streams. */
  lemma TokensInjective(a: Node, b: Node)
    requires Tokens(a) == Tokens(b)
    ensures a == b
  {
    ParseTokens(a, []);
    ParseTokens(b, []);
    assert Tokens(a) + [] == Tokens(a);
    assert Tokens(b) + [] == Tokens(b);
  }

  /** The token stream of `q.TokenReader()`: the query start token, the filter
      form, the paging request, a flip-page start and end when `Reverse`, and the
      query end token. */
  lemma QueryTokens(q: Query)
    ensures var ts := Tokens(QueryElement(q));
      && |ts| == (if q.reverse then 6 else 4)
      && ts[0] == Start(QueryName, [Attr(QueryIdName, q.id)])
      && ts[1] == Embedded(Submitted(FilterFields(q)))
      && ts[2] == Embedded(Paging(q))
      && (q.reverse ==> ts[3] == Start(FlipPage.name, []) && ts[4] == End(FlipPage.name))
      && ts[|ts| - 1] == End(QueryName)
  {
    var cs := Children(QueryElement(q));
    assert TokensOf([]) == [];
    assert TokensOf([FlipPage]) == [Start(FlipPage.name, []), End(FlipPage.name)] by {
      assert TokensOf(FlipPage.children) == [];
      assert [FlipPage][1..] == [];
    }
    assert cs[1..][1..] == cs[2..];
    assert TokensOf(cs[1..]) == [Embedded(cs[1])] + TokensOf(cs[2..]);
    assert TokensOf(cs) == [Embedded(cs[0])] + TokensOf(cs[1..]);
  }

  /** An `xmlstream.TokenWriter`: the tokens it has accepted, and how many it
      can take before `EncodeToken` fails (`None`: it never fails). */
  class TokenWriter {
    var tokens: seq<Token>
    const room: Option<nat>

    constructor (room: Option<nat>)
      ensures tokens == [] && this.room == room
    {
      tokens := [];
      this.room := room;
    }

    /** Whether the writer takes one more token. */
    predicate Accepts()
      reads this
    {
      room.None? || |tokens| < room.value
    }

    /** `EncodeToken(t)`: the token is written, or an error comes back and nothing is written. */
    method EncodeToken(t: Token) returns (err: Option<Error>)
      modifies this
      ensures err.None? <==> old(Accepts())
      ensures tokens == if err.None? then old(tokens) + [t] else old(tokens)
    {
      if room.Some? && |tokens| >= room.value {
        err := Some(Error("token writer is full"));
      } else {
        tokens := tokens + [t];
        err := None;
      }
    }
  }

  /** `xmlstream.Copy`: writes the tokens in order until they run out or the
      writer fails; returns how many were written and the writer's error. */
  method Copy(w: TokenWriter, src: seq<Token>) returns (n: nat, err: Option<Error>)
    modifies w
    ensures n <= |src| && w.tokens == old(w.tokens) + src[..n]
    ensures err.None? <==> n == |src|
    ensures err.Some? ==> !w.Accepts()
  {
    n := 0;
    err := None;
    while n < |src|
      invariant n <= |src| && w.tokens == old(w.tokens) + src[..n]
      invariant err.None?
      decreases |src| - n
    {
      err := w.EncodeToken(src[n]);
      if err.Some? {
        return;
      }
      assert src[..n + 1] == src[..n] + [src[n]];
      n := n + 1;
    }
  }

  /** `q.WriteXML(w)` (history/query.go:116-118): copies the reader's tokens to `w`. */
  method WriteXML(q: Query, w: TokenWriter) returns (n: nat, err: Option<Error>)
    modifies w
    ensures n <= |Tokens(QueryElement(q))| && w.tokens == old(w.tokens) + Tokens(QueryElement(q))[..n]
    ensures err.None? <==> n == |Tokens(QueryElement(q))|
  {
    var r := TokenReader(q);
    n, err := Copy(w, Tokens(r));
  }

  /** `q.MarshalXML(e, start)` (history/query.go:121-124): `WriteXML` with the count dropped;
      the start element passed in is ignored. */
  method MarshalXML(q: Query, e: TokenWriter) returns (err: Option<Error>)
    modifies e
    ensures err.None? ==> e.tokens == old(e.tokens) + Tokens(QueryElement(q))
    ensures err.Some? ==>
      exists k :: 0 <= k < |Tokens(QueryElement(q))| && e.tokens == old(e.tokens) + Tokens(QueryElement(q))[..k]
  {
    var n;
    n, err := WriteXML(q, e);
    assert Tokens(QueryElement(q))[..|Tokens(QueryElement(q))|] == Tokens(QueryElement(q));
  }
}
