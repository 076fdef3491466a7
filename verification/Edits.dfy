/** Functional update of a nested frozen value along a path: the meaning an edit session is held to. */
module Edits {

  datatype Option<+T> = None | Some(value: T)

  datatype Key = Name(name: string) | Number(number: int)

  /** `Placeholder` is what stands in for a dictionary key that was navigated to before it had a value. */
  datatype Value =
    | Leaf(id: int)
    | Placeholder
    | Record(fields: map<string, Value>)
    | Tuple(items: seq<Value>)
    | Dict(entries: map<Key, Value>)

  datatype Step = Attribute(name: string) | Subscript(key: Key)

  datatype Error = TypeError | AttributeError | IndexError | AssertionError

  datatype Place = Found(key: Key) | Refused(error: Error)

  datatype Outcome = Done | Failed(error: Error)

  datatype Edited = Edited(value: Value, outcome: Outcome)

  /** Python's indexing of a list: negative positions count from the end. */
  function Position(n: int, length: nat): int {
    if n < 0 then n + length else n
  }

  /** The child a step leads to.  A dictionary takes any key, present or not. */
  function Locate(v: Value, step: Step): Place {
    match (v, step)
    case (Record(fields), Attribute(name)) =>
      if name in fields then Found(Name(name)) else Refused(AttributeError)
    case (Tuple(items), Subscript(Number(n))) =>
      if 0 <= Position(n, |items|) < |items| then Found(Number(Position(n, |items|))) else Refused(IndexError)
    case (Tuple(_), Subscript(Name(_))) => Refused(AssertionError)
    case (Dict(_), Subscript(key)) => Found(key)
    case _ => Refused(TypeError)
  }

  /** `key` names a child of `v`, or may come to. */
  predicate Fits(v: Value, key: Key) {
    match v
    case Record(fields) => key.Name? && key.name in fields
    case Tuple(items) => key.Number? && 0 <= key.number < |items|
    case Dict(_) => true
    case _ => false
  }

  function ChildOf(v: Value, key: Key): Value
    requires Fits(v, key)
  {
    match v
    case Record(fields) => fields[key.name]
    case Tuple(items) => items[key.number]
    case Dict(entries) => if key in entries then entries[key] else Placeholder
  }

  function With(v: Value, key: Key, child: Value): Value
    requires Fits(v, key)
  {
    match v
    case Record(fields) => Record(fields[key.name := child])
    case Tuple(items) => Tuple(items[key.number := child])
    case Dict(entries) => Dict(entries[key := child])
  }

  /** Walks the path and, if a new value is given, puts it there.  A walk that is refused halfway keeps the
      placeholders it has made. */
  function Edit(v: Value, path: seq<Step>, change: Option<Value>): Edited
    decreases |path|
  {
    if path == [] then
      Edited(if change.Some? then change.value else v, Done)
    else
      match Locate(v, path[0])
      case Refused(error) => Edited(v, Failed(error))
      case Found(key) =>
        var inner := Edit(ChildOf(v, key), path[1..], change);
        Edited(With(v, key, inner.value), inner.outcome)
  }

  datatype Action = Action(path: seq<Step>, change: Option<Value>)

  function EditAll(v: Value, actions: seq<Action>): Value {
    if actions == [] then v
    else
      var last := actions[|actions| - 1];
      Edit(EditAll(v, actions[..|actions| - 1]), last.path, last.change).value
  }

  // ---------------------------------------------------------------- what an edit does, value by value

  /** An empty path replaces the value itself. */
  lemma EditHere(v: Value, change: Option<Value>)
    ensures Edit(v, [], change) == Edited(if change.Some? then change.value else v, Done)
  {
  }

  lemma FirstStep(step: Step, rest: seq<Step>)
    ensures ([step] + rest)[0] == step && ([step] + rest)[1..] == rest
  {
  }

  /** At a tuple's position, counted from either end, exactly that item is edited; any other position is refused. */
  lemma EditTuple(items: seq<Value>, n: int, rest: seq<Step>, change: Option<Value>)
    ensures
      var edited := Edit(Tuple(items), [Subscript(Number(n))] + rest, change);
      if 0 <= n < |items| then
        var inner := Edit(items[n], rest, change);
        edited == Edited(Tuple(items[n := inner.value]), inner.outcome)
      else if -|items| <= n < 0 then
        var inner := Edit(items[|items| + n], rest, change);
        edited == Edited(Tuple(items[|items| + n := inner.value]), inner.outcome)
      else
        edited == Edited(Tuple(items), Failed(IndexError))
  {
    FirstStep(Subscript(Number(n)), rest);
  }

  /** At a record's field exactly that field is edited; any other name is refused. */
  lemma EditRecord(fields: map<string, Value>, name: string, rest: seq<Step>, change: Option<Value>)
    ensures
      var edited := Edit(Record(fields), [Attribute(name)] + rest, change);
      if name in fields then
        var inner := Edit(fields[name], rest, change);
        edited == Edited(Record(fields[name := inner.value]), inner.outcome)
      else
        edited == Edited(Record(fields), Failed(AttributeError))
  {
    FirstStep(Attribute(name), rest);
  }

  /** At a dictionary's key exactly that entry is edited, starting from a placeholder if it is missing. */
  lemma EditDict(entries: map<Key, Value>, key: Key, rest: seq<Step>, change: Option<Value>)
    ensures
      var inner := Edit(if key in entries then entries[key] else Placeholder, rest, change);
      Edit(Dict(entries), [Subscript(key)] + rest, change)
      == Edited(Dict(entries[key := inner.value]), inner.outcome)
  {
    FirstStep(Subscript(key), rest);
  }

  /** Every other access is refused with its own error and changes nothing: an attribute of anything but a record,
      a subscript of anything but a tuple or a dictionary, and a string subscript of a tuple. */
  lemma UnsupportedIsRefused(v: Value, step: Step, rest: seq<Step>, change: Option<Value>)
    ensures step.Attribute? && !v.Record? ==> Edit(v, [step] + rest, change) == Edited(v, Failed(TypeError))
    ensures step.Subscript? && !v.Tuple? && !v.Dict? ==>
      Edit(v, [step] + rest, change) == Edited(v, Failed(TypeError))
    ensures step.Subscript? && step.key.Name? && v.Tuple? ==>
      Edit(v, [step] + rest, change) == Edited(v, Failed(AssertionError))
  {
    FirstStep(step, rest);
  }

  /** A session makes its edits one after the other, each on what the ones before have left. */
  lemma SessionIsStepwise(v: Value, before: seq<Action>, path: seq<Step>, change: Option<Value>)
    ensures EditAll(v, []) == v
    ensures EditAll(v, before + [Action(path, change)]) == Edit(EditAll(v, before), path, change).value
  {
    assert (before + [Action(path, change)])[..|before|] == before;
  }

  // ---------------------------------------------------------------- laws

  lemma WithTakesSteps(v: Value, key: Key, child: Value, step: Step)
    requires Fits(v, key)
    ensures Locate(With(v, key, child), step) == Locate(v, step)
    ensures forall other :: Fits(With(v, key, child), other) <==> Fits(v, other)
    ensures forall other | Fits(v, other) ::
      ChildOf(With(v, key, child), other) == if other == key then child else ChildOf(v, other)
  {
  }

  lemma WithTwice(v: Value, key: Key, first: Value, second: Value)
    requires Fits(v, key)
    ensures With(With(v, key, first), key, second) == With(v, key, second)
  {
    match v {
      case Record(fields) => assert fields[key.name := first][key.name := second] == fields[key.name := second];
      case Tuple(items) => assert items[key.number := first][key.number := second] == items[key.number := second];
      case Dict(entries) => assert entries[key := first][key := second] == entries[key := second];
    }
  }

  lemma WithApart(v: Value, k: Key, l: Key, a: Value, b: Value)
    requires Fits(v, k) && Fits(v, l) && k != l
    ensures With(With(v, k, a), l, b) == With(With(v, l, b), k, a)
  {
    match v {
      case Record(fields) =>
        assert fields[k.name := a][l.name := b] == fields[l.name := b][k.name := a];
      case Tuple(items) =>
        assert items[k.number := a][l.number := b] == items[l.number := b][k.number := a];
      case Dict(entries) =>
        assert entries[k := a][l := b] == entries[l := b][k := a];
    }
  }

  /** Writing at a prefix discards every edit made below it; with an empty `below`, the last write wins.  This
      holds for refused paths and for paths through missing keys alike. */
  lemma {:induction false} PrefixDiscardsDeeper(v: Value, path: seq<Step>, below: seq<Step>, first: Option<Value>,
                                                second: Value)
    ensures Edit(Edit(v, path + below, first).value, path, Some(second)) == Edit(v, path, Some(second))
    decreases |path|
  {
    if path != [] {
      assert (path + below)[0] == path[0] && (path + below)[1..] == path[1..] + below;
      match Locate(v, path[0])
      case Refused(_) =>
      case Found(key) =>
        var child := ChildOf(v, key);
        var inner := Edit(child, path[1..] + below, first).value;
        PrefixDiscardsDeeper(child, path[1..], below, first, second);
        WithTakesSteps(v, key, inner, path[0]);
        WithTwice(v, key, inner, Edit(child, path[1..], Some(second)).value);
    }
  }

  /** The two paths part at some child. */
  predicate Apart(v: Value, p: seq<Step>, q: seq<Step>)
    decreases |p|
  {
    && p != [] && q != []
    && Locate(v, p[0]).Found? && Locate(v, q[0]).Found?
    && var key := Locate(v, p[0]).key;
       (key == Locate(v, q[0]).key ==> Apart(ChildOf(v, key), p[1..], q[1..]))
  }

  /** Edits along paths that part can be made in either order, with the same result and the same answers. */
  lemma {:induction false} PartedEditsCommute(v: Value, p: seq<Step>, q: seq<Step>, a: Option<Value>, b: Option<Value>)
    requires Apart(v, p, q)
    ensures Edit(Edit(v, p, a).value, q, b).value == Edit(Edit(v, q, b).value, p, a).value
    ensures Edit(Edit(v, p, a).value, q, b).outcome == Edit(v, q, b).outcome
    ensures Edit(Edit(v, q, b).value, p, a).outcome == Edit(v, p, a).outcome
    decreases |p|
  {
    var k, l := Locate(v, p[0]).key, Locate(v, q[0]).key;
    var left, right := Edit(ChildOf(v, k), p[1..], a).value, Edit(ChildOf(v, l), q[1..], b).value;
    WithTakesSteps(v, k, left, q[0]);
    WithTakesSteps(v, l, right, p[0]);
    if k == l {
      PartedEditsCommute(ChildOf(v, k), p[1..], q[1..], a, b);
      WithTwice(v, k, left, Edit(left, q[1..], b).value);
      WithTwice(v, k, right, Edit(right, p[1..], a).value);
    } else {
      WithApart(v, k, l, left, right);
    }
  }

  /** What is found at the end of a path. */
  function Lookup(v: Value, path: seq<Step>): Option<Value>
    decreases |path|
  {
    if path == [] then Some(v)
    else match Locate(v, path[0])
      case Refused(_) => None
      case Found(key) => Lookup(ChildOf(v, key), path[1..])
  }

  /** A value written is read back at its path, and a walk is refused before the write if and only if it is
      refused after it. */
  lemma {:induction false} WriteThenRead(v: Value, path: seq<Step>, new_: Value)
    ensures Edit(v, path, Some(new_)).outcome.Done? <==> Lookup(v, path).Some?
    ensures Lookup(Edit(v, path, Some(new_)).value, path)
         == if Lookup(v, path).Some? then Some(new_) else None
    decreases |path|
  {
    if path != [] {
      match Locate(v, path[0])
      case Refused(_) =>
      case Found(key) =>
        WriteThenRead(ChildOf(v, key), path[1..], new_);
        WithTakesSteps(v, key, Edit(ChildOf(v, key), path[1..], Some(new_)).value, path[0]);
    }
  }

  /** No dictionary key along the path is missing, as far as the walk gets. */
  predicate Present(v: Value, path: seq<Step>)
    decreases |path|
  {
    path == [] || match Locate(v, path[0])
      case Refused(_) => true
      case Found(key) => (v.Dict? ==> key in v.entries) && Present(ChildOf(v, key), path[1..])
  }

  /** Navigating without assigning changes the result if and only if it passes a missing dictionary key. */
  lemma {:induction false} ReadsAreInvisibleExactlyWhen(v: Value, path: seq<Step>)
    ensures Edit(v, path, None).value == v <==> Present(v, path)
    decreases |path|
  {
    if path != [] {
      match Locate(v, path[0])
      case Refused(_) =>
      case Found(key) =>
        var child := ChildOf(v, key);
        var inner := Edit(child, path[1..], None).value;
        ReadsAreInvisibleExactlyWhen(child, path[1..]);
        WithTakesSteps(v, key, inner, path[0]);
        match v {
          case Record(fields) => assert inner == child ==> fields[key.name := inner] == fields;
          case Tuple(items) => assert inner == child ==> items[key.number := inner] == items;
          case Dict(entries) =>
            assert key in With(v, key, inner).entries;
            assert inner == child && key in entries ==> entries[key := inner] == entries;
        }
    }
  }

  /** So reads can be dropped from a session when every one of them finds its keys. */
  lemma {:induction false} PresentReadsCanBeDropped(v: Value, before: seq<Action>, path: seq<Step>, after: seq<Action>)
    requires Present(EditAll(v, before), path)
    ensures EditAll(v, before + [Action(path, None)] + after) == EditAll(v, before + after)
    decreases |after|
  {
    var with_ := before + [Action(path, None)] + after;
    if after == [] {
      ReadsAreInvisibleExactlyWhen(EditAll(v, before), path);
      assert with_[..|with_| - 1] == before;
      assert before + after == before;
    } else {
      var n := |after| - 1;
      PresentReadsCanBeDropped(v, before, path, after[..n]);
      assert with_[..|with_| - 1] == before + [Action(path, None)] + after[..n];
      assert (before + after)[..|before + after| - 1] == before + after[..n];
    }
  }
}
