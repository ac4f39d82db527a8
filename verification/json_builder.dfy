/** The tree a JSON event stream stands for, built one event at a time on values. */
module JsonSpec {

  datatype Option<T> = None | Some(value: T)

  /** What can be read from a finished varVal. */
  datatype Value = Scalar(str: string, boolean: bool) | List(items: seq<Value>)

  /** The empty string, the boolean false and null all read as the same value. */
  const EMPTY := Scalar("", false)

  datatype Json = Text(str: string) | Number(text: string) | Bool(b: bool) | Null | Array(items: seq<Json>)

  /** The tokenizer's callbacks. */
  datatype Event = StartMap | EndMap | Key(key: string) | Str(str: string) | Num(text: string)
                 | Boolean(b: bool) | Nil | StartArray | EndArray

  // The event stream of a document

  function ValueEvents(j: Json): seq<Event> {
    match j
    case Text(s) => [Str(s)]
    case Number(t) => [Num(t)]
    case Bool(b) => [Boolean(b)]
    case Null => [Nil]
    case Array(items) => [StartArray] + ItemsEvents(items) + [EndArray]
  }

  function ItemsEvents(items: seq<Json>): seq<Event> {
    if items == [] then [] else ValueEvents(items[0]) + ItemsEvents(items[1..])
  }

  function MembersEvents(doc: seq<(string, Json)>): seq<Event> {
    if doc == [] then [] else [Key(doc[0].0)] + ValueEvents(doc[0].1) + MembersEvents(doc[1..])
  }

  function DocumentEvents(doc: seq<(string, Json)>): seq<Event> {
    [StartMap] + MembersEvents(doc) + [EndMap]
  }

  // What a document should be read as

  function BoolValue(b: bool): Value { Scalar("", b) }

  function TextValue(s: string): Value {
    if s == "true" || s == "false" then BoolValue(s == "true") else Scalar(s, false)
  }

  function Read(j: Json): Value {
    match j
    case Text(s) => TextValue(s)
    case Number(t) => Scalar(t, false)
    case Bool(b) => BoolValue(b)
    case Null => EMPTY
    case Array(items) => List(ReadItems(items))
  }

  function ReadItems(items: seq<Json>): (vs: seq<Value>)
    ensures |vs| == |items|
  {
    if items == [] then [] else [Read(items[0])] + ReadItems(items[1..])
  }

  predicate HasNull(j: Json) {
    j.Null? || (j.Array? && exists i :: 0 <= i < |j.items| && HasNull(j.items[i]))
  }

  /** A null anywhere inside an array. */
  predicate NullInArray(j: Json) { j.Array? && HasNull(j) }

  /** What the member is stored as. */
  function Stored(j: Json): Value {
    if NullInArray(j) then EMPTY else Read(j)
  }

  /** The dictionary of a document; of members with equal keys the last one counts. */
  function Dictionary(doc: seq<(string, Json)>): map<string, Value> {
    if doc == [] then map[]
    else Dictionary(doc[..|doc| - 1])[doc[|doc| - 1].0 := Stored(doc[|doc| - 1].1)]
  }

  // The builder on values: finished members, and the finished items of each list that is still open

  /** root is the key under which the outermost open list is stored, if it still is. */
  datatype Builder = Builder(curKey: string, dict: map<string, Value>, root: Option<string>, stack: seq<seq<Value>>)

  const START := Builder("", map[], None, [])

  function Push(stack: seq<seq<Value>>, vs: seq<Value>): seq<seq<Value>>
    requires stack != []
  {
    stack[..|stack| - 1] + [stack[|stack| - 1] + vs]
  }

  lemma PushFacts(stack: seq<seq<Value>>, top: seq<Value>, vs: seq<Value>, ws: seq<Value>)
    ensures stack != [] ==> Push(stack, []) == stack && Push(Push(stack, vs), ws) == Push(stack, vs + ws)
    ensures Push(stack + [top], vs) == stack + [top + vs]
  {
    if stack != [] {
      var last := stack[|stack| - 1];
      assert last + [] == last && last + vs + ws == last + (vs + ws);
      assert stack[..|stack| - 1] + [last] == stack;
    }
    assert (stack + [top])[..|stack|] == stack;
  }

  function Add(b: Builder, v: Value): Builder {
    if b.stack == [] then b.(dict := b.dict[b.curKey := v]) else b.(stack := Push(b.stack, [v]))
  }

  /** A null is always stored under the current key, even while a list is open. */
  function AddNull(b: Builder): Builder {
    b.(dict := b.dict[b.curKey := EMPTY], root := if b.root == Some(b.curKey) then None else b.root)
  }

  function OpenList(b: Builder): Builder {
    if b.stack == [] then b.(dict := b.dict - {b.curKey}, root := Some(b.curKey), stack := [[]])
    else b.(stack := b.stack + [[]])
  }

  function CloseList(b: Builder): Builder {
    var n := |b.stack|;
    if n == 0 then b
    else
      var v := List(b.stack[n - 1]);
      if n > 1 then b.(stack := Push(b.stack[..n - 1], [v]))
      else b.(dict := if b.root.Some? then b.dict[b.root.value := v] else b.dict, root := None, stack := [])
  }

  function Step(b: Builder, e: Event): Builder {
    match e
    case Key(k) => b.(curKey := k)
    case Str(s) => Add(b, TextValue(s))
    case Num(t) => Add(b, Scalar(t, false))
    case Boolean(x) => Add(b, BoolValue(x))
    case Nil => AddNull(b)
    case StartArray => OpenList(b)
    case EndArray => CloseList(b)
    case _ => b
  }

  function Run(b: Builder, es: seq<Event>): Builder
    decreases |es|
  {
    if es == [] then b else Run(Step(b, es[0]), es[1..])
  }

  lemma {:induction false} RunAppend(b: Builder, es: seq<Event>, fs: seq<Event>)
    ensures Run(b, es + fs) == Run(Run(b, es), fs)
    decreases |es|
  {
    if es == [] {
      assert [] + fs == fs;
    } else {
      assert (es + fs)[0] == es[0] && (es + fs)[1..] == es[1..] + fs;
      RunAppend(Step(b, es[0]), es[1..], fs);
    }
  }

  // Round trip

  /** The items of a list, without the nulls that never reach it. */
  function Kept(items: seq<Json>): seq<Value> {
    if items == [] then [] else KeptItem(items[0]) + Kept(items[1..])
  }

  function KeptItem(j: Json): seq<Value> {
    match j
    case Null => []
    case Array(items) => [List(Kept(items))]
    case _ => [Read(j)]
  }

  predicate AnyNull(items: seq<Json>) { exists i :: 0 <= i < |items| && HasNull(items[i]) }

  /** What items inside an open list do to the builder. */
  function Emit(b: Builder, items: seq<Json>): Builder
    requires b.stack != []
  {
    var kept := b.(stack := Push(b.stack, Kept(items)));
    if AnyNull(items) then kept.(dict := b.dict[b.curKey := EMPTY], root := None) else kept
  }

  lemma SingleItem(j: Json)
    ensures Kept([j]) == KeptItem(j)
    ensures AnyNull([j]) <==> HasNull(j)
  {
    assert [j][1..] == [] && KeptItem(j) + [] == KeptItem(j) && [j][0] == j;
  }

  lemma KeptSplit(items: seq<Json>)
    requires items != []
    ensures Kept(items) == Kept([items[0]]) + Kept(items[1..])
    ensures AnyNull(items) <==> AnyNull([items[0]]) || AnyNull(items[1..])
  {
    SingleItem(items[0]);
    assert forall i :: 0 < i < |items| ==> items[i] == items[1..][i - 1];
    assert forall i :: 0 <= i < |items[1..]| ==> items[1..][i] == items[i + 1];
  }

  lemma {:induction false} ItemsInList(b: Builder, items: seq<Json>)
    requires b.stack != [] && (b.root.Some? ==> b.root.value == b.curKey)
    ensures Run(b, ItemsEvents(items)) == Emit(b, items)
    decreases items, 0
  {
    if items == [] {
      PushFacts(b.stack, [], [], []);
    } else {
      ItemInList(b, items[0]);
      var c := Emit(b, [items[0]]);
      ItemsInList(c, items[1..]);
      RunAppend(b, ValueEvents(items[0]), ItemsEvents(items[1..]));
      KeptSplit(items);
      PushFacts(b.stack, [], Kept([items[0]]), Kept(items[1..]));
    }
  }

  lemma {:induction false} ItemInList(b: Builder, j: Json)
    requires b.stack != [] && (b.root.Some? ==> b.root.value == b.curKey)
    ensures Run(b, ValueEvents(j)) == Emit(b, [j])
    decreases j, 2
  {
    SingleItem(j);
    match j {
      case Array(items) => ListInList(b, items);
      case Null => PushFacts(b.stack, [], [], []);
      case _ => assert ValueEvents(j)[1..] == [];
    }
  }

  /** The events of a list: open it, emit its items, close it. */
  lemma {:induction false} ListEvents(b: Builder, items: seq<Json>)
    ensures Run(b, ValueEvents(Array(items))) == CloseList(Run(OpenList(b), ItemsEvents(items)))
  {
    assert ValueEvents(Array(items)) == [StartArray] + (ItemsEvents(items) + [EndArray]);
    RunAppend(b, [StartArray], ItemsEvents(items) + [EndArray]);
    RunAppend(OpenList(b), ItemsEvents(items), [EndArray]);
  }

  lemma {:induction false} ListInList(b: Builder, items: seq<Json>)
    requires b.stack != [] && (b.root.Some? ==> b.root.value == b.curKey)
    ensures Run(b, ValueEvents(Array(items))) == Emit(b, [Array(items)])
    decreases Array(items), 1
  {
    SingleItem(Array(items));
    ListEvents(b, items);
    ItemsInList(OpenList(b), items);
    var inner := b.stack + [Kept(items)];
    assert Push(b.stack + [[]], Kept(items)) == inner by {
      PushFacts(b.stack, [], Kept(items), []);
      assert [] + Kept(items) == Kept(items);
    }
    assert inner[..|b.stack|] == b.stack;
  }

  lemma {:induction false} KeptAll(items: seq<Json>)
    requires !AnyNull(items)
    ensures Kept(items) == ReadItems(items)
    decreases items
  {
    if items != [] {
      assert !HasNull(items[0]);
      assert forall i :: 0 <= i < |items[1..]| ==> items[1..][i] == items[i + 1];
      KeptAll(items[1..]);
      if items[0].Array? {
        KeptAll(items[0].items);
      }
    }
  }

  /** The events of one member store exactly its value under the current key. */
  lemma {:induction false} MemberRoundTrip(b: Builder, j: Json)
    requires b.stack == [] && b.root == None
    ensures Run(b, ValueEvents(j)) == b.(dict := b.dict[b.curKey := Stored(j)])
  {
    if j.Array? {
      var items := j.items;
      var none: seq<seq<Value>> := [];
      ListEvents(b, items);
      ItemsInList(OpenList(b), items);
      assert Push([[]], Kept(items)) == [Kept(items)] by {
        assert [[]][..0] == none && [] + Kept(items) == Kept(items) && none + [Kept(items)] == [Kept(items)];
      }
      if !AnyNull(items) {
        KeptAll(items);
      }
      assert (b.dict - {b.curKey})[b.curKey := Stored(j)] == b.dict[b.curKey := Stored(j)];
    }
  }

  /** One member, whatever follows. */
  lemma {:induction false} MemberThen(b: Builder, k: string, j: Json, es: seq<Event>)
    requires b.stack == [] && b.root == None
    ensures Run(b, [Key(k)] + (ValueEvents(j) + es)) == Run(b.(curKey := k, dict := b.dict[k := Stored(j)]), es)
  {
    RunAppend(b, [Key(k)], ValueEvents(j) + es);
    RunAppend(b.(curKey := k), ValueEvents(j), es);
    MemberRoundTrip(b.(curKey := k), j);
    assert [Key(k)][1..] == [];
  }

  lemma {:induction false} MembersRoundTrip(b: Builder, doc: seq<(string, Json)>, rest: seq<(string, Json)>)
    requires b.stack == [] && b.root == None && b.dict == Dictionary(doc)
    ensures var r := Run(b, MembersEvents(rest));
            r.dict == Dictionary(doc + rest) && r.stack == [] && r.root == None
    decreases |rest|
  {
    if rest == [] {
      assert doc + rest == doc;
    } else {
      var (k, j) := rest[0];
      assert MembersEvents(rest) == [Key(k)] + (ValueEvents(j) + MembersEvents(rest[1..]));
      MemberThen(b, k, j, MembersEvents(rest[1..]));
      assert (doc + [rest[0]])[..|doc|] == doc;
      MembersRoundTrip(b.(curKey := k, dict := b.dict[k := Stored(j)]), doc + [rest[0]], rest[1..]);
      assert doc + [rest[0]] + rest[1..] == doc + rest;
    }
  }

  /** The event stream of a flat document builds its dictionary and leaves no list open. */
  lemma {:induction false} DocumentRoundTrip(doc: seq<(string, Json)>)
    ensures var r := Run(START, DocumentEvents(doc));
            r.dict == Dictionary(doc) && r.stack == [] && r.root == None
  {
    assert DocumentEvents(doc) == [StartMap] + (MembersEvents(doc) + [EndMap]);
    RunAppend(START, [StartMap], MembersEvents(doc) + [EndMap]);
    RunAppend(START, MembersEvents(doc), [EndMap]);
    MembersRoundTrip(START, [], doc);
    assert [] + doc == doc;
  }

  /** The events of a member store what it should be read as exactly when no null occurs inside an array. */
  lemma StoredExactly(b: Builder, j: Json)
    requires b.stack == [] && b.root == None
    ensures var r := Run(b, ValueEvents(j));
            b.curKey in r.dict && (r.dict[b.curKey] == Read(j) <==> !NullInArray(j))
  {
    MemberRoundTrip(b, j);
  }

  /** The strings "true" and "false" read as booleans, any other text and every number as its text, a boolean as an
      empty string with it, and null as the empty string and false. */
  predicate ReadsAs(e: Event, v: Value) {
    match e
    case Str(s) => v == if s == "true" then Scalar("", true) else if s == "false" then Scalar("", false)
                        else Scalar(s, false)
    case Num(t) => v == Scalar(t, false)
    case Boolean(x) => v == Scalar("", x)
    case Nil => v == Scalar("", false)
    case _ => false
  }

  /** What a single value is stored as under its key. */
  lemma ScalarsReadAs(b: Builder, e: Event, v: Value)
    requires b.stack == [] && b.root == None && ReadsAs(e, v)
    ensures Run(b, [e]).dict == b.dict[b.curKey := v]
  {
    assert [e][1..] == [] && [e][0] == e;
  }

  lemma {:induction false} RootStays(b: Builder, es: seq<Event>)
    requires b.root.Some? ==> b.root.value !in b.dict && b.stack != []
    ensures var r := Run(b, es); r.root.Some? ==> r.root.value !in r.dict && r.stack != []
    decreases |es|
  {
    if es != [] {
      RootStays(Step(b, es[0]), es[1..]);
    }
  }

  /** In every stream a member whose list is still open has no finished value, not even an earlier one. */
  lemma OpenIsUnfinished(es: seq<Event>)
    ensures var r := Run(START, es); r.root.Some? ==> r.root.value !in r.dict
  {
    RootStays(START, es);
  }
}
