/** The parser object: a tree of heap nodes grown through a current list and a stack of its ancestors. */
module JsonParser {
  import opened JsonSpec

  class VarVal {
    var str: string
    var list: ItemList?
    var boolean: bool

    constructor ()
      ensures str == "" && list == null && !boolean
    {
      str, list, boolean := "", null, false;
    }

    constructor Scalar(str: string, boolean: bool)
      ensures this.str == str && list == null && this.boolean == boolean
    {
      this.str, list, this.boolean := str, null, boolean;
    }
  }

  class ItemList {
    var items: seq<VarVal>

    constructor ()
      ensures items == []
    {
      items := [];
    }

    method PushBack(v: VarVal)
      modifies this
      ensures items == old(items) + [v]
    {
      items := items + [v];
    }
  }

  /** The tree under v reads as x, and all its nodes are in S. */
  ghost predicate Represents(v: VarVal, x: Value, S: set<object>)
    reads S
    decreases x
  {
    && v in S
    && match x
       case Scalar(str, boolean) => v.str == str && v.boolean == boolean && v.list == null
       case List(xs) =>
         && v.str == "" && !v.boolean && v.list != null && v.list in S && |v.list.items| == |xs|
         && forall i :: 0 <= i < |xs| ==> Represents(v.list.items[i], xs[i], S)
  }

  /** The finished values, with what each reads as: every node agrees with its items. */
  ghost predicate Consistent(content: map<VarVal, Value>, closed: set<ItemList>)
    reads content.Keys, closed
  {
    forall v :: v in content ==>
      match content[v]
      case Scalar(str, boolean) => v.str == str && v.boolean == boolean && v.list == null
      case List(xs) =>
        && v.str == "" && !v.boolean && v.list != null && v.list in closed && |v.list.items| == |xs|
        && forall i :: 0 <= i < |xs| ==> v.list.items[i] in content && content[v.list.items[i]] == xs[i]
  }

  lemma {:induction false} ConsistentRepresents(content: map<VarVal, Value>, closed: set<ItemList>, v: VarVal)
    requires Consistent(content, closed) && v in content
    ensures Represents(v, content[v], content.Keys + closed)
    decreases content[v]
  {
    if content[v].List? {
      var xs := content[v].items;
      forall i | 0 <= i < |xs| ensures Represents(v.list.items[i], xs[i], content.Keys + closed) {
        ConsistentRepresents(content, closed, v.list.items[i]);
      }
    }
  }

  /** The list l of value o is open: it holds the finished items acc and then at most one value, whose
      own list is open. */
  ghost predicate Open(o: VarVal, l: ItemList, acc: seq<Value>, child: seq<VarVal>, content: map<VarVal, Value>)
    reads o, l
  {
    && o !in content && o.str == "" && !o.boolean && o.list == l
    && |l.items| == |acc| + |child| && l.items[|acc|..] == child
    && forall j :: 0 <= j < |acc| ==> l.items[j] in content && content[l.items[j]] == acc[j]
  }

  function Child(owners: seq<VarVal>, i: nat): seq<VarVal>
    requires i < |owners|
  {
    if i + 1 < |owners| then [owners[i + 1]] else []
  }

  /** The open lists, outermost first. */
  ghost predicate OpenLists(owners: seq<VarVal>, lists: seq<ItemList>, stack: seq<seq<Value>>,
                            content: map<VarVal, Value>, closed: set<ItemList>)
    reads owners, lists
  {
    && |owners| == |lists| == |stack|
    && (forall i {:trigger lists[i]} :: 0 <= i < |lists| ==>
          lists[i] !in closed && Open(owners[i], lists[i], stack[i], Child(owners, i), content))
    && (forall i, j :: 0 <= i < j < |lists| ==> lists[i] != lists[j])
  }

  /** The dictionary: finished values, and the outermost open one under the root key. */
  ghost predicate Members(d: map<string, VarVal>, b: Builder, owners: seq<VarVal>, content: map<VarVal, Value>) {
    && (b.root.Some? ==> owners != [])
    && d.Keys == b.dict.Keys + (if b.root.Some? then {b.root.value} else {})
    && forall k :: k in d ==>
         if b.root == Some(k) then d[k] == owners[0] else d[k] in content && content[d[k]] == b.dict[k]
  }

  /** What is finished stays finished and reads the same. */
  ghost predicate Grown(before: map<VarVal, Value>, after: map<VarVal, Value>) {
    forall v :: v in before ==> v in after && after[v] == before[v]
  }

  /** The heap under a parser is what builder b describes. The equation keeps the three parts together where
      they are only passed on. */
  ghost predicate Coupled(d: map<string, VarVal>, b: Builder, owners: seq<VarVal>, lists: seq<ItemList>,
                          content: map<VarVal, Value>, closed: set<ItemList>)
    reads content.Keys, closed, owners, lists
  {
    true == (Consistent(content, closed) && OpenLists(owners, lists, b.stack, content, closed)
             && Members(d, b, owners, content))
  }

  lemma CoupledAdd(d: map<string, VarVal>, b: Builder, owners: seq<VarVal>, lists: seq<ItemList>,
                   content: map<VarVal, Value>, closed: set<ItemList>, v: VarVal)
    requires Coupled(d, b, owners, lists, content, closed) && v !in content && v !in owners && v.list == null
    ensures var x := Scalar(v.str, v.boolean);
            && Coupled(d, b, owners, lists, content[v := x], closed)
            && Coupled(d[b.curKey := v], b.(dict := b.dict[b.curKey := x],
                                            root := if b.root == Some(b.curKey) then None else b.root),
                       owners, lists, content[v := x], closed)
  {
  }

  lemma CoupledOpen(d: map<string, VarVal>, b: Builder, content: map<VarVal, Value>, closed: set<ItemList>,
                    v: VarVal, l: ItemList)
    requires Coupled(d, b, [], [], content, closed)
    requires v !in content && l !in closed && v.str == "" && !v.boolean && v.list == l && l.items == []
    ensures Coupled(d[b.curKey := v], OpenList(b), [v], [l], content, closed)
  {
  }

  lemma ClosedConsistent(owners: seq<VarVal>, lists: seq<ItemList>, stack: seq<seq<Value>>,
                         content: map<VarVal, Value>, closed: set<ItemList>)
    requires Consistent(content, closed) && OpenLists(owners, lists, stack, content, closed) && lists != []
    ensures var n := |lists| - 1;
            Consistent(content[owners[n] := List(stack[n])], closed + {lists[n]})
  {
    var n := |lists| - 1;
    assert Open(owners[n], lists[n], stack[n], [], content);
  }

  /** A list around the innermost one stays open when that one is closed. */
  lemma StillOpen(owners: seq<VarVal>, lists: seq<ItemList>, stack: seq<seq<Value>>,
                  content: map<VarVal, Value>, closed: set<ItemList>, i: nat)
    requires OpenLists(owners, lists, stack, content, closed) && i < |lists| - 1
    ensures var n := |lists| - 1;
            && lists[i] !in closed + {lists[n]}
            && Open(owners[i], lists[i], Push(stack[..n], [List(stack[n])])[i], Child(owners[..n], i),
                    content[owners[n] := List(stack[n])])
  {
    var n := |lists| - 1;
    assert Open(owners[i], lists[i], stack[i], Child(owners, i), content);
    assert owners[i].list == lists[i] != lists[n] == owners[n].list;
  }

  lemma ClosedLists(owners: seq<VarVal>, lists: seq<ItemList>, stack: seq<seq<Value>>,
                    content: map<VarVal, Value>, closed: set<ItemList>)
    requires OpenLists(owners, lists, stack, content, closed) && lists != []
    ensures var n := |lists| - 1;
            OpenLists(owners[..n], lists[..n], if n == 0 then [] else Push(stack[..n], [List(stack[n])]),
                      content[owners[n] := List(stack[n])], closed + {lists[n]})
  {
    forall i | 0 <= i < |lists| - 1
      ensures var n := |lists| - 1;
              && lists[i] !in closed + {lists[n]}
              && Open(owners[i], lists[i], Push(stack[..n], [List(stack[n])])[i], Child(owners[..n], i),
                      content[owners[n] := List(stack[n])])
    {
      assert Open(owners[|lists| - 1], lists[|lists| - 1], stack[|lists| - 1], [], content);
      StillOpen(owners, lists, stack, content, closed, i);
    }
  }

  lemma ClosedMembers(d: map<string, VarVal>, b: Builder, owners: seq<VarVal>, content: map<VarVal, Value>)
    requires Members(d, b, owners, content) && |owners| == |b.stack| > 0 && owners[|owners| - 1] !in content
    ensures var n := |owners| - 1;
            Members(d, CloseList(b), owners[..n], content[owners[n] := List(b.stack[n])])
  {
  }

  /** Closing the innermost list turns its owner into a finished item of the list around it. */
  lemma CoupledClose(d: map<string, VarVal>, b: Builder, owners: seq<VarVal>, lists: seq<ItemList>,
                     content: map<VarVal, Value>, closed: set<ItemList>)
    requires Coupled(d, b, owners, lists, content, closed) && lists != []
    ensures |b.stack| == |lists| == |owners|
    ensures var n := |lists| - 1;
            Coupled(d, CloseList(b), owners[..n], lists[..n], content[owners[n] := List(b.stack[n])],
                    closed + {lists[n]})
  {
    var n := |lists| - 1;
    var content', closed' := content[owners[n] := List(b.stack[n])], closed + {lists[n]};
    assert Open(owners[n], lists[n], b.stack[n], [], content);
    forall i | 0 <= i < n ensures owners[i] != owners[n] {
      assert owners[i].list == lists[i] != lists[n] == owners[n].list;
    }
    ClosedConsistent(owners, lists, b.stack, content, closed);
    ClosedLists(owners, lists, b.stack, content, closed);
    ClosedMembers(d, b, owners, content);
  }

  /** Appends a finished value to the innermost list. */
  method PushItem(l: ItemList, vv: VarVal, ghost d: map<string, VarVal>, ghost b: Builder, ghost owners: seq<VarVal>,
                  ghost lists: seq<ItemList>, ghost content: map<VarVal, Value>, ghost closed: set<ItemList>)
    requires Coupled(d, b, owners, lists, content, closed)
    requires lists != [] && l == lists[|lists| - 1] && vv in content && b.stack != []
    modifies l
    ensures Coupled(d, b.(stack := Push(b.stack, [content[vv]])), owners, lists, content, closed)
  {
    l.PushBack(vv);
  }

  lemma NestedLists(owners: seq<VarVal>, lists: seq<ItemList>, stack: seq<seq<Value>>,
                    content: map<VarVal, Value>, closed: set<ItemList>, v: VarVal, l: ItemList)
    requires |owners| == |lists| == |stack| > 0 && l !in closed && l !in lists
    requires forall l' :: l' in lists ==> l' !in closed
    requires forall i {:trigger lists[i]} :: 0 <= i < |lists| ==>
               Open(owners[i], lists[i], stack[i], if i + 1 < |lists| then [owners[i + 1]] else [v], content)
    requires forall i, j :: 0 <= i < j < |lists| ==> lists[i] != lists[j]
    requires Open(v, l, [], [], content)
    ensures OpenLists(owners + [v], lists + [l], stack + [[]], content, closed)
  {
  }

  /** Appends a value with a new, empty list to the innermost list. */
  method NestItem(l: ItemList, vv: VarVal, ghost d: map<string, VarVal>, ghost b: Builder, ghost owners: seq<VarVal>,
                  ghost lists: seq<ItemList>, ghost content: map<VarVal, Value>, ghost closed: set<ItemList>)
    requires Coupled(d, b, owners, lists, content, closed)
    requires lists != [] && l == lists[|lists| - 1] && vv !in content && vv !in owners && vv.str == "" && !vv.boolean
    requires vv.list != null && vv.list.items == [] && vv.list !in closed && vv.list !in lists
    modifies l
    ensures Coupled(d, b.(stack := b.stack + [[]]), owners + [vv], lists + [vv.list], content, closed)
  {
    l.PushBack(vv);
    ghost var n := |lists| - 1;
    forall i | 0 <= i <= n
      ensures Open(owners[i], lists[i], b.stack[i], if i < n then [owners[i + 1]] else [vv], content)
    {
      assert old(Open(owners[i], lists[i], b.stack[i], Child(owners, i), content));
    }
    NestedLists(owners, lists, b.stack, content, closed, vv, vv.list);
  }

  class Parser {
    var mCurKey: string
    var mDict: map<string, VarVal>
    var mArrays: seq<ItemList>  // the stack of outer lists, top last
    var mArray: ItemList?       // the innermost open list

    ghost var spec: Builder
    ghost var content: map<VarVal, Value>  // the finished values
    ghost var closed: set<ItemList>        // their lists
    ghost var owners: seq<VarVal>          // the values whose lists are open, outermost first
    ghost var lists: seq<ItemList>         // their lists

    ghost predicate Valid()
      reads this, content.Keys, closed, owners, lists
    {
      match spec
      case Builder(curKey, _, _, stack) =>
        && mCurKey == curKey && |lists| == |stack|
        && Coupled(mDict, spec, owners, lists, content, closed)
        && mArray == (if lists == [] then null else lists[|lists| - 1])
        && mArrays == (if lists == [] then [] else lists[..|lists| - 1])
    }

    constructor ()
      ensures Valid() && spec == START && lists == []
    {
      mCurKey, mDict, mArrays, mArray := "", map[], [], null;
      spec, content, closed, owners, lists := START, map[], {}, [], [];
    }

    /** The heap as it is now is what these ghost values describe. */
    ghost method Adopt(b: Builder, owners': seq<VarVal>, lists': seq<ItemList>, content': map<VarVal, Value>,
                       closed': set<ItemList>)
      requires Coupled(mDict, b, owners', lists', content', closed')
      modifies this`spec, this`owners, this`lists, this`content, this`closed
      ensures Coupled(mDict, b, owners', lists', content', closed')
      ensures spec == b && owners == owners' && lists == lists' && content == content' && closed == closed'
    {
      spec, owners, lists, content, closed := b, owners', lists', content', closed';
    }

    /** The same for a value that was added. */
    ghost method Record(b: Builder, content': map<VarVal, Value>)
      requires Coupled(mDict, b, owners, lists, content', closed)
      modifies this`spec, this`content
      ensures Coupled(mDict, b, owners, lists, content', closed) && spec == b && content == content'
    {
      spec, content := b, content';
    }

    method NewKey(keyName: string)
      requires Valid()
      modifies this`mCurKey, this`spec
      ensures Valid() && spec == Step(old(spec), Key(keyName))
    {
      mCurKey := keyName;
      spec := spec.(curKey := keyName);
    }

    method PutItem(vv: VarVal)
      requires Valid() && mArray != null && vv !in content && vv !in owners && vv.list == null
      modifies this`content, this`spec, mArray
      ensures Valid() && spec == Add(old(spec), Scalar(vv.str, vv.boolean))
      ensures Grown(old(content), content)
    {
      ghost var x := Scalar(vv.str, vv.boolean);
      CoupledAdd(mDict, spec, owners, lists, content, closed, vv);
      PushItem(mArray, vv, mDict, spec, owners, lists, content[vv := x], closed);
      Record(spec.(stack := Push(spec.stack, [x])), content[vv := x]);
    }

    /** An entry of the dictionary. */
    method SetMember(vv: VarVal, ghost b: Builder, ghost content': map<VarVal, Value>)
      requires Coupled(mDict[mCurKey := vv], b, owners, lists, content', closed)
      modifies this`mDict, this`spec, this`content
      ensures Coupled(mDict, b, owners, lists, content', closed) && spec == b && content == content'
    {
      mDict := mDict[mCurKey := vv];
      spec, content := b, content';
    }

    method PutMember(vv: VarVal)
      requires Valid() && vv !in content && vv !in owners && vv.list == null
      modifies this`content, this`spec, this`mDict
      ensures Valid() && Grown(old(content), content)
      ensures spec == old(spec).(dict := old(spec).dict[mCurKey := Scalar(vv.str, vv.boolean)],
                                 root := if old(spec).root == Some(mCurKey) then None else old(spec).root)
    {
      ghost var x := Scalar(vv.str, vv.boolean);
      ghost var b := spec.(dict := spec.dict[mCurKey := x],
                           root := if spec.root == Some(mCurKey) then None else spec.root);
      CoupledAdd(mDict, spec, owners, lists, content, closed, vv);
      SetMember(vv, b, content[vv := x]);
    }

    /** A finished value goes to the current list, or into the dictionary when none is open. */
    method Put(vv: VarVal)
      requires Valid() && vv !in content && vv !in owners && vv.list == null
      modifies this`mDict, this`spec, this`content, if mArray == null then {} else {mArray}
      ensures Valid() && spec == Add(old(spec), Scalar(vv.str, vv.boolean))
      ensures Grown(old(content), content)
    {
      if mArray != null {
        PutItem(vv);
      } else {
        PutMember(vv);
      }
    }

    method NewString(value: string)
      requires Valid()
      modifies this`mDict, this`spec, this`content, if mArray == null then {} else {mArray}
      ensures Valid() && spec == Add(old(spec), Scalar(value, false))
      ensures Grown(old(content), content)
    {
      var vv := new VarVal.Scalar(value, false);
      Put(vv);
    }

    method NewBool(value: bool)
      requires Valid()
      modifies this`mDict, this`spec, this`content, if mArray == null then {} else {mArray}
      ensures Valid() && spec == Add(old(spec), BoolValue(value))
      ensures Grown(old(content), content)
    {
      var vv := new VarVal.Scalar("", value);
      Put(vv);
    }

    /** A null bypasses the current list. */
    method NewNull()
      requires Valid()
      modifies this`mDict, this`spec, this`content
      ensures Valid() && spec == AddNull(old(spec))
      ensures Grown(old(content), content)
    {
      var vv := new VarVal();
      PutMember(vv);
    }

    method NewOuterArray(vv: VarVal, list: ItemList)
      requires Valid() && mArray == null && vv !in content && list !in closed
      requires vv.str == "" && !vv.boolean && vv.list == list && list.items == []
      modifies this`mDict, this`mArray, this`owners, this`lists, this`spec, this`content, this`closed
      ensures Valid() && spec == OpenList(old(spec)) && lists == old(lists) + [list] && content == old(content)
    {
      CoupledOpen(mDict, spec, content, closed, vv, list);
      mDict, mArray := mDict[mCurKey := vv], list;
      Adopt(OpenList(spec), [vv], [list], content, closed);
    }

    method EnterArray(list: ItemList)
      requires Coupled(mDict, spec, owners, lists, content, closed) && mCurKey == spec.curKey && |lists| == |spec.stack|
      requires mArray != null && lists == mArrays + [mArray] + [list]
      modifies this`mArray, this`mArrays
      ensures Valid()
    {
      mArrays := mArrays + [mArray];
      mArray := list;
    }

    method NewInnerArray(vv: VarVal, list: ItemList)
      requires Valid() && mArray != null && vv !in content && vv !in owners && list !in closed && list !in lists
      requires vv.str == "" && !vv.boolean && vv.list == list && list.items == []
      modifies this`mArrays, this`mArray, this`owners, this`lists, this`spec, this`content, this`closed, mArray
      ensures Valid() && spec == OpenList(old(spec)) && lists == old(lists) + [list] && content == old(content)
    {
      NestItem(mArray, vv, mDict, spec, owners, lists, content, closed);
      Adopt(OpenList(spec), owners + [vv], lists + [list], content, closed);
      EnterArray(list);
    }

    method NewArray()
      requires Valid()
      modifies this, if mArray == null then {} else {mArray}
      ensures Valid() && spec == OpenList(old(spec)) && content == old(content)
      ensures forall l: ItemList :: l in lists ==> l in old(lists) || fresh(l)
    {
      var vv := new VarVal();
      var list := new ItemList();
      vv.list := list;
      if mArray != null {
        NewInnerArray(vv, list);
      } else {
        NewOuterArray(vv, list);
      }
    }

    /** The list around the one just closed becomes the current one, if there is any. */
    method LeaveArray()
      requires Coupled(mDict, spec, owners, lists, content, closed) && mCurKey == spec.curKey && |lists| == |spec.stack|
      requires mArrays == lists
      modifies this`mArray, this`mArrays
      ensures Valid()
    {
      if |mArrays| > 0 {
        mArray := mArrays[|mArrays| - 1];
        mArrays := mArrays[..|mArrays| - 1];
      } else {
        mArray := null;
      }
    }

    /** The value whose list is closed becomes a finished one. */
    ghost method FinishInnermost()
      requires Valid() && lists != []
      modifies this`content, this`closed, this`owners, this`lists, this`spec
      ensures Coupled(mDict, spec, owners, lists, content, closed)
      ensures spec == CloseList(old(spec)) && lists == old(lists)[..|old(lists)| - 1] && |lists| == |spec.stack|
      ensures Grown(old(content), content)
    {
      CoupledClose(mDict, spec, owners, lists, content, closed);
      var n := |lists| - 1;
      assert owners[n] !in content by { assert Open(owners[n], lists[n], spec.stack[n], [], content); }
      Adopt(CloseList(spec), owners[..n], lists[..n], content[owners[n] := List(spec.stack[n])], closed + {lists[n]});
    }

    method EndArray()
      requires Valid()
      modifies this
      ensures Valid() && spec == CloseList(old(spec))
      ensures forall l: ItemList :: l in lists ==> l in old(lists)
      ensures Grown(old(content), content)
    {
      if lists != [] {
        FinishInnermost();
      }
      LeaveArray();
    }

    /** The strings "true" and "false" become booleans. */
    method ParseString(str: string)
      requires Valid()
      modifies this`mDict, this`spec, this`content, if mArray == null then {} else {mArray}
      ensures Valid() && spec == Step(old(spec), Str(str))
      ensures Grown(old(content), content)
    {
      if str == "true" || str == "false" {
        NewBool(str == "true");
      } else {
        NewString(str);
      }
    }

    /** A number is kept as its text. */
    method ParseNumber(text: string)
      requires Valid()
      modifies this`mDict, this`spec, this`content, if mArray == null then {} else {mArray}
      ensures Valid() && spec == Step(old(spec), Num(text))
      ensures Grown(old(content), content)
    {
      NewString(text);
    }

    method ParseBoolean(b: bool)
      requires Valid()
      modifies this`mDict, this`spec, this`content, if mArray == null then {} else {mArray}
      ensures Valid() && spec == Step(old(spec), Boolean(b))
      ensures Grown(old(content), content)
    {
      NewBool(b);
    }

    method ParseNull()
      requires Valid()
      modifies this`mDict, this`spec, this`content
      ensures Valid() && spec == Step(old(spec), Nil)
      ensures Grown(old(content), content)
    {
      NewNull();
    }

    method ParseScalar(e: Event)
      requires Valid() && (e.Str? || e.Num? || e.Boolean? || e.Nil?)
      modifies this`mDict, this`spec, this`content, if mArray == null then {} else {mArray}
      ensures Valid() && spec == Step(old(spec), e)
      ensures Grown(old(content), content)
    {
      match e {
        case Str(str) => ParseString(str);
        case Num(text) => ParseNumber(text);
        case Boolean(b) => ParseBoolean(b);
        case Nil => ParseNull();
      }
    }

    method ParseList(e: Event)
      requires Valid() && (e.StartArray? || e.EndArray?)
      modifies this, if mArray == null then {} else {mArray}
      ensures Valid() && spec == Step(old(spec), e)
      ensures Grown(old(content), content)
      ensures forall l: ItemList :: l in lists ==> l in old(lists) || fresh(l)
    {
      if e.StartArray? {
        NewArray();
      } else {
        EndArray();
      }
    }

    /** One tokenizer callback. Nothing that is finished changes. */
    method Callback(e: Event)
      requires Valid()
      modifies this, if mArray == null then {} else {mArray}
      ensures Valid() && spec == Step(old(spec), e)
      ensures Grown(old(content), content)
      ensures forall l: ItemList :: l in lists ==> l in old(lists) || fresh(l)
    {
      match e {
        case Key(k) => NewKey(k);
        case StartArray => ParseList(e);
        case EndArray => ParseList(e);
        case StartMap =>
        case EndMap =>
        case _ => ParseScalar(e);
      }
    }

    /** The tokenizer feeds its events one after the other. */
    method Parse(events: seq<Event>)
      requires Valid()
      modifies this, lists
      ensures Valid() && spec == Run(old(spec), events)
      ensures Grown(old(content), content)
    {
      ghost var start := spec;
      var i := 0;
      while i < |events|
        invariant 0 <= i <= |events| && Valid()
        invariant Run(spec, events[i..]) == Run(start, events)
        invariant Grown(old(content), content)
        invariant forall l: ItemList :: l in lists ==> l in old(lists) || fresh(l)
      {
        assert events[i..][0] == events[i] && events[i..][1..] == events[i + 1..];
        assert mArray != null ==> mArray in lists;
        Callback(events[i]);
        i := i + 1;
      }
    }

    /** A flat document is read back member by member, and no list is left open. */
    method ParseDocument(doc: seq<(string, Json)>)
      requires Valid() && spec == START
      modifies this, lists
      ensures mArray == null && mArrays == []
      ensures mDict.Keys == Dictionary(doc).Keys
      ensures forall k :: k in mDict ==> Represents(mDict[k], Dictionary(doc)[k], content.Keys + closed)
    {
      DocumentRoundTrip(doc);
      Parse(DocumentEvents(doc));
      forall k | k in mDict ensures Represents(mDict[k], Dictionary(doc)[k], content.Keys + closed) {
        ConsistentRepresents(content, closed, mDict[k]);
      }
    }
  }
}
