/** The mutable edit tree over a frozen value.  Children of records are created on first navigation, those of
    tuples and dictionaries when the value is assigned; refreezing applies what was recorded. */
module Evolvers {
  import opened Edits

  class Evolver {
    var base: Value
    var children: map<Key, Evolver>
    ghost var Repr: set<Evolver>

    ghost predicate Valid()
      reads this, Repr
      decreases Repr, 2
    {
      Family() && ShapeFits(base, children.Keys)
    }

    /** Every child owns its own part of the tree. */
    ghost predicate Family()
      reads this, Repr
      decreases Repr, 1
    {
      && this in Repr
      && (forall k <- children :: Owned(k))
      && (forall k <- children, l <- children :: k != l ==> children[k].Repr !! children[l].Repr)
    }

    ghost predicate Owned(k: Key)
      requires k in children
      reads this, Repr
      requires this in Repr
      decreases Repr, 0
    {
      && children[k] in Repr && children[k] in children[k].Repr
      && children[k].Repr <= Repr - {this}
      && children[k].Valid()
    }

    /** What refreezing gives. */
    ghost function Frozen(): Value
      requires Valid()
      reads this, Repr
      decreases Repr, 2
    {
      match base
      case Record(fields) =>
        Record(map n | n in fields :: if Name(n) in children then FrozenChild(Name(n)) else fields[n])
      case Tuple(items) => Tuple(FrozenItems(|items|))
      case Dict(_) => Dict(map k | k in children :: FrozenChild(k))
      case _ => base
    }

    ghost function FrozenItems(n: nat): (r: seq<Value>)
      requires Valid() && base.Tuple? && n <= |base.items|
      ensures |r| == n && forall i | 0 <= i < n :: r[i] == FrozenChild(Number(i))
      reads this, Repr
      decreases Repr, 1, n
    {
      if n == 0 then [] else FrozenItems(n - 1) + [FrozenChild(Number(n - 1))]
    }

    ghost function FrozenChild(k: Key): Value
      requires Valid() && k in children
      reads this, Repr
      decreases Repr, 0
    {
      assert Family();
      assert Owned(k);
      children[k].Frozen()
    }

    /** The value a child has, or would have if it were created. */
    ghost function Current(k: Key): Value
      requires Valid() && Fits(base, k)
      reads this, Repr
    {
      if k in children then FrozenChild(k) else ChildOf(base, k)
    }

    lemma FrozenShows()
      requires Valid()
      ensures forall step :: Locate(Frozen(), step) == Locate(base, step)
      ensures forall k :: Fits(Frozen(), k) <==> Fits(base, k)
      ensures forall k | Fits(base, k) :: ChildOf(Frozen(), k) == Current(k)
    {
      if base.Tuple? {
        assert forall i | 0 <= i < |base.items| :: FrozenItems(|base.items|)[i] == FrozenChild(Number(i));
      }
    }

    /** A value of the same kind whose children are the current ones is what refreezing gives. */
    lemma FrozenIs(w: Value)
      requires Valid()
      requires forall k :: Fits(w, k) <==> Fits(base, k)
      requires forall k | Fits(base, k) :: ChildOf(w, k) == Current(k)
      requires base.Dict? ==> w.Dict? && w.entries.Keys == children.Keys
      requires base.Record? ==> w.Record?
      requires base.Tuple? ==> w.Tuple?
      requires base.Leaf? || base.Placeholder? ==> w == base
      ensures Frozen() == w
    {
      match base
      case Record(fields) =>
        RecordIs(w);
      case Tuple(items) =>
        TupleIs(w);
      case Dict(entries) =>
        assert forall k <- children :: Fits(base, k) && w.entries[k] == ChildOf(w, k);
        assert Frozen().entries == w.entries;
      case _ =>
    }

    lemma RecordIs(w: Value)
      requires Valid() && base.Record? && w.Record?
      requires forall k :: Fits(w, k) <==> Fits(base, k)
      requires forall k | Fits(base, k) :: ChildOf(w, k) == Current(k)
      ensures Frozen() == w
    {
      assert forall n :: n in w.fields <==> Fits(w, Name(n));
      assert forall n <- base.fields :: Fits(base, Name(n)) && w.fields[n] == ChildOf(w, Name(n));
      assert Frozen().fields == w.fields;
    }

    lemma TupleIs(w: Value)
      requires Valid() && base.Tuple? && w.Tuple?
      requires forall k :: Fits(w, k) <==> Fits(base, k)
      requires forall k | Fits(base, k) :: ChildOf(w, k) == Current(k)
      ensures Frozen() == w
    {
      var n, m := |base.items|, |w.items|;
      assert Fits(w, Number(n - 1)) <==> n > 0;
      assert Fits(w, Number(n)) <==> false;
      assert Fits(w, Number(m - 1)) <==> m > 0;
      assert forall i | 0 <= i < n :: Fits(base, Number(i)) && w.items[i] == ChildOf(w, Number(i));
      assert FrozenItems(n) == w.items;
    }

    constructor (v: Value)
      ensures Valid() && fresh(Repr) && Frozen() == v
      decreases v, 3
    {
      base := Placeholder;
      children := map[];
      Repr := {};
      new;
      Assign(v);
    }

    /** Takes a new value, dropping whatever was recorded. */
    method Assign(v: Value)
      modifies this
      ensures Valid() && fresh(Repr - {this}) && Frozen() == v
      decreases v, 2
    {
      base := v;
      children := map[];
      Repr := {this};
      match v
      case Tuple(items) => WrapItems(items);
      case Dict(entries) => WrapEntries(entries);
      case Record(fields) => assert Frozen().fields == fields;
      case _ =>
    }

    method WrapItems(items: seq<Value>)
      requires base == Tuple(items) && children == map[] && Repr == {this}
      modifies this
      ensures Valid() && fresh(Repr - {this}) && Frozen() == Tuple(items)
      decreases Tuple(items), 1
    {
      for i := 0 to |items|
        invariant ItemsWrapped(items, i) && fresh(Repr - {this}) && base == Tuple(items)
      {
        WrapItem(items, i);
      }
      assert FrozenItems(|items|) == items;
    }

    ghost predicate ItemsWrapped(items: seq<Value>, n: nat)
      requires n <= |items|
      reads this, Repr
    {
      && Family() && (children.Keys == set j | 0 <= j < n :: Number(j))
      && forall k <- children :: Owned(k) && children[k].Frozen() == items[k.number]
    }

    method WrapItem(items: seq<Value>, i: nat)
      requires i < |items| && ItemsWrapped(items, i)
      modifies this
      ensures ItemsWrapped(items, i + 1) && base == old(base) && fresh(Repr - old(Repr))
      decreases Tuple(items), 0
    {
      Wrap(Number(i), items[i]);
    }

    method WrapEntries(entries: map<Key, Value>)
      requires base == Dict(entries) && children == map[] && Repr == {this}
      modifies this
      ensures Valid() && fresh(Repr - {this}) && Frozen() == Dict(entries)
      decreases Dict(entries), 1
    {
      while entries.Keys - children.Keys != {}
        invariant PartlyWrapped(entries) && fresh(Repr - {this}) && base == Dict(entries)
        decreases |entries.Keys - children.Keys|
      {
        WrapNext(entries);
      }
      assert children.Keys == entries.Keys;
      assert Frozen().entries == entries;
    }

    ghost predicate PartlyWrapped(entries: map<Key, Value>)
      reads this, Repr
    {
      && Family() && children.Keys <= entries.Keys
      && forall k <- children :: Owned(k) && children[k].Frozen() == entries[k]
    }

    method WrapNext(entries: map<Key, Value>)
      requires PartlyWrapped(entries) && entries.Keys - children.Keys != {}
      modifies this
      ensures PartlyWrapped(entries) && base == old(base) && fresh(Repr - old(Repr))
      ensures |entries.Keys - children.Keys| < old(|entries.Keys - children.Keys|)
      decreases Dict(entries), 0
    {
      var k :| k in entries.Keys - children.Keys;
      OneFewer(entries.Keys, children.Keys, k);
      Wrap(k, entries[k]);
    }

    /** Adds a child around a value. */
    method Wrap(k: Key, v: Value)
      requires Family() && k !in children
      modifies this
      ensures Family() && base == old(base) && fresh(Repr - old(Repr))
      ensures children.Keys == old(children).Keys + {k}
      ensures Owned(k) && children[k].Frozen() == v
      ensures forall l <- old(children) ::
        children[l] == old(children[l]) && Owned(l) && children[l].Frozen() == old(children[l].Frozen())
      decreases v, 4
    {
      var child := new Evolver(v);
      children := children[k := child];
      Repr := Repr + child.Repr;
      forall l | l in children
        ensures Owned(l)
      {
        assert l != k ==> old(Owned(l));
      }
    }

    /** `e.name`: the child evolver of a record's field, created when first asked for. */
    method GetAttribute(name: string) returns (place: Place)
      requires Valid()
      modifies this
      ensures Led(place, Attribute(name), old(Frozen())) && fresh(Repr - old(Repr)) && base == old(base)
      ensures
        place == if !base.Record? then Refused(TypeError)
                 else if name in base.fields then Found(Name(name))
                 else Refused(AttributeError)
    {
      FrozenShows();
      if !base.Record? {
        return Refused(TypeError);
      }
      if name !in base.fields {
        return Refused(AttributeError);
      }
      if Name(name) !in children {
        CreateChild(Name(name));
      }
      StaysShown(old(Frozen()), Name(name));
      return Found(Name(name));
    }

    /** `e[key]`: the child evolver of an element; a missing dictionary key is given a placeholder. */
    method GetItem(key: Key) returns (place: Place)
      requires Valid()
      modifies this
      ensures Led(place, Subscript(key), old(Frozen())) && fresh(Repr - old(Repr)) && base == old(base)
      ensures base.Tuple? && key.Number? ==>
        place == if 0 <= key.number < |base.items| then Found(key)
                 else if -|base.items| <= key.number < 0 then Found(Number(|base.items| + key.number))
                 else Refused(IndexError)
      ensures base.Tuple? && key.Name? ==> place == Refused(AssertionError)
      ensures base.Dict? ==> place == Found(key)
      ensures !base.Tuple? && !base.Dict? ==> place == Refused(TypeError)
    {
      FrozenShows();
      match base
      case Tuple(items) =>
        if key.Name? {
          return Refused(AssertionError);
        }
        var position := Position(key.number, |items|);
        if !(0 <= position < |items|) {
          return Refused(IndexError);
        }
        StaysShown(old(Frozen()), Number(position));
        return Found(Number(position));
      case Dict(entries) =>
        if key !in children {
          CreateChild(key);
        }
        StaysShown(old(Frozen()), key);
        return Found(key);
      case _ =>
        return Refused(TypeError);
    }

    /** Where a step has led, and what it has done to the value. */
    ghost predicate Led(place: Place, step: Step, before: Value)
      reads this, Repr
    {
      && Valid() && place == Locate(before, step)
      && match place
         case Refused(_) => Frozen() == before
         case Found(key) => key in children && Fits(before, key) && Frozen() == With(before, key, ChildOf(before, key))
    }

    method CreateChild(key: Key)
      requires Valid() && Fits(base, key) && key !in children && (base.Record? || base.Dict?)
      modifies this
      ensures Valid() && key in children && fresh(Repr - old(Repr)) && base == old(base)
      ensures forall k | Fits(base, k) :: Current(k) == old(Current(k))
      ensures children.Keys == old(children.Keys) + {key}
    {
      var v := if base.Record? then base.fields[key.name] else Placeholder;
      Wrap(key, v);
      assert forall l <- old(children) :: Owned(l) && old(Owned(l));
    }

    lemma StaysShown(before: Value, key: Key)
      requires Valid() && key in children && Fits(before, key)
      requires forall k :: Fits(before, k) <==> Fits(base, k)
      requires forall k | Fits(base, k) :: ChildOf(before, k) == Current(k)
      requires base.Dict? ==> before.Dict? && before.entries.Keys + {key} == children.Keys
      requires base.Record? ==> before.Record?
      requires base.Tuple? ==> before.Tuple?
      ensures Frozen() == With(before, key, ChildOf(before, key))
    {
      WithTakesSteps(before, key, ChildOf(before, key), Attribute(""));
      FrozenIs(With(before, key, ChildOf(before, key)));
    }

    /** Navigates from here along the path and assigns, if there is something to assign: refreezing afterwards
        gives the functional update of what it would have given before. */
    method Apply(path: seq<Step>, change: Option<Value>) returns (outcome: Outcome)
      requires Valid()
      modifies Repr
      ensures Valid() && fresh(Repr - old(Repr))
      ensures Edited(Frozen(), outcome) == Edit(old(Frozen()), path, change)
      decreases |path|, 0
    {
      if path == [] {
        if change.Some? {
          Assign(change.value);
        }
        return Done;
      }
      ghost var before := Frozen();
      var place;
      match path[0] {
        case Attribute(name) => place := GetAttribute(name);
        case Subscript(key) => place := GetItem(key);
      }
      if place.Refused? {
        return Failed(place.error);
      }
      var key := place.key;
      ghost var child := ChildOf(before, key);
      FrozenShows();
      WithTakesSteps(before, key, child, path[0]);
      assert FrozenChild(key) == child;
      outcome := ApplyBelow(key, path[1..], change);
      WithTwice(before, key, child, Edit(child, path[1..], change).value);
    }

    method ApplyBelow(key: Key, path: seq<Step>, change: Option<Value>) returns (outcome: Outcome)
      requires Valid() && key in children && Fits(Frozen(), key)
      modifies Repr
      ensures Valid() && fresh(Repr - old(Repr))
      ensures outcome == Edit(old(FrozenChild(key)), path, change).outcome
      ensures Frozen() == With(old(Frozen()), key, Edit(old(FrozenChild(key)), path, change).value)
      decreases |path|, 1
    {
      ghost var before := Frozen();
      FrozenShows();
      assert Family() && Owned(key);
      var child := children[key];
      outcome := child.Apply(path, change);
      Repr := Repr + child.Repr;
      StillOwned(key);
      ghost var after := With(before, key, child.Frozen());
      WithTakesSteps(before, key, child.Frozen(), Attribute(""));
      FrozenIs(after);
    }

    /** Changing one child and what is new below it leaves the others as they were. */
    twostate lemma StillOwned(key: Key)
      requires old(Valid()) && key in children && children == old(children) && base == old(base)
      requires children[key].Valid() && fresh(children[key].Repr - old(children[key].Repr))
      requires Repr == old(Repr) + children[key].Repr
      requires forall l <- children, o <- old(children[l].Repr) :: l != key ==> unchanged(o)
      ensures Valid()
      ensures forall l | Fits(base, l) && l != key :: Current(l) == old(Current(l))
    {
      assert old(Family());
      forall l | l in children
        ensures Owned(l)
        ensures l != key ==>
          children[l].Repr == old(children[l].Repr) && children[l].Frozen() == old(children[l].Frozen())
      {
        assert old(Owned(l)) && old(Owned(key));
      }
    }

    /** Refreezes: applies the recorded changes and returns the new frozen value. */
    method Chill() returns (v: Value)
      requires Valid()
      ensures v == Frozen()
      decreases Repr, 3
    {
      match base
      case Record(fields) =>
        var updates := ChillChildren();
        v := Record(map n | n in fields :: if Name(n) in updates then updates[Name(n)] else fields[n]);
        assert v.fields == Frozen().fields;
      case Tuple(items) =>
        var frozen := ChillItems();
        v := Tuple(frozen);
      case Dict(_) =>
        var entries := ChillChildren();
        v := Dict(entries);
        assert v.entries == Frozen().entries;
      case _ =>
        v := base;
    }

    method ChillChild(k: Key) returns (v: Value)
      requires Valid() && k in children
      ensures v == FrozenChild(k)
      decreases Repr, 0
    {
      assert Family() && Owned(k);
      v := children[k].Chill();
    }

    method ChillItems() returns (frozen: seq<Value>)
      requires Valid() && base.Tuple?
      ensures frozen == FrozenItems(|base.items|)
      decreases Repr, 2
    {
      frozen := [];
      for i := 0 to |base.items|
        invariant frozen == FrozenItems(i)
      {
        var item := ChillChild(Number(i));
        frozen := frozen + [item];
      }
    }

    ghost function FrozenChildren(): map<Key, Value>
      requires Valid()
      reads this, Repr
    {
      map k | k in children :: FrozenChild(k)
    }

    method ChillChildren() returns (frozen: map<Key, Value>)
      requires Valid()
      ensures frozen == FrozenChildren()
      decreases Repr, 2
    {
      frozen := map[];
      ghost var target := FrozenChildren();
      while frozen.Keys != children.Keys
        invariant PartOf(frozen, target)
        decreases |children.Keys - frozen.Keys|
      {
        SomeLeft(children.Keys, frozen.Keys);
        var k := Missing(children.Keys - frozen.Keys);
        var value := ChillChild(k);
        assert value == target[k];
        OneFewer(children.Keys, frozen.Keys, k);
        OneMore(frozen, target, k);
        frozen := frozen[k := value];
      }
      SameKeys(frozen, target);
    }
  }

  method Missing(left: set<Key>) returns (k: Key)
    requires left != {}
    ensures k in left
  {
    k :| k in left;
  }

  ghost predicate PartOf(frozen: map<Key, Value>, target: map<Key, Value>) {
    frozen.Keys <= target.Keys && forall k <- frozen :: frozen[k] == target[k]
  }

  lemma OneMore(frozen: map<Key, Value>, target: map<Key, Value>, k: Key)
    requires PartOf(frozen, target) && k in target
    ensures PartOf(frozen[k := target[k]], target)
    ensures frozen[k := target[k]].Keys == frozen.Keys + {k}
  {
  }

  lemma SameKeys(frozen: map<Key, Value>, target: map<Key, Value>)
    requires PartOf(frozen, target) && frozen.Keys == target.Keys
    ensures frozen == target
  {
  }

  /** A whole session: wrap a frozen value, navigate and assign any number of times, refreeze. */
  method Session(v: Value, actions: seq<Action>) returns (result: Value)
    ensures result == EditAll(v, actions)
  {
    var root := new Evolver(v);
    for i := 0 to |actions|
      invariant root.Valid() && fresh(root.Repr) && root.Frozen() == EditAll(v, actions[..i])
    {
      assert actions[..i + 1][..i] == actions[..i];
      var outcome := root.Apply(actions[i].path, actions[i].change);
    }
    assert actions[..|actions|] == actions;
    result := root.Chill();
  }

  /** An evolver that was taken from below `root`, at any depth, is cut off when `root` is assigned to: what is
      recorded through it afterwards changes its own value and never reaches the root's. */
  method EditCutOff(root: Evolver, v: Value, held: Evolver, path: seq<Step>, change: Option<Value>)
    returns (outcome: Outcome)
    requires root.Valid() && held.Valid() && root !in held.Repr
    modifies root, held.Repr
    ensures root.Valid() && root.Frozen() == v
    ensures held.Valid() && Edited(held.Frozen(), outcome) == Edit(old(held.Frozen()), path, change)
  {
    root.Assign(v);
    outcome := held.Apply(path, change);
  }

  /** The evolvers that navigation from `root` hands out can be held in this way. */
  lemma ChildrenCanBeHeld(root: Evolver, key: Key)
    requires root.Valid() && key in root.children
    ensures root.children[key].Valid() && root !in root.children[key].Repr
    ensures root.children[key].Repr <= root.Repr
  {
    assert root.Family() && root.Owned(key);
  }

  lemma SomeLeft(keys: set<Key>, done: set<Key>)
    requires done <= keys && done != keys
    ensures keys - done != {}
  {
    assert done + (keys - done) == keys;
  }

  lemma OneFewer(keys: set<Key>, done: set<Key>, k: Key)
    requires k in keys - done
    ensures |keys - (done + {k})| < |keys - done|
  {
    assert keys - (done + {k}) == (keys - done) - {k};
  }

  predicate ShapeFits(base: Value, keys: set<Key>) {
    match base
    case Record(fields) => forall k <- keys :: Fits(base, k)
    case Tuple(items) => keys == set i | 0 <= i < |items| :: Number(i)
    case Dict(entries) => entries.Keys <= keys
    case _ => keys == {}
  }
}
