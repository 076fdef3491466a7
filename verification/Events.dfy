/** Shutdown events: a node is set by itself, by an external event it also listens to, or by its parent. */
module Events {

  /** A plain event has no links.  Links never change after construction. */
  class Event {
    const parent: Event?
    const external: Event?
    ghost const height: nat
    var flag: bool

    /** Everything this event listens to, itself included. */
    ghost const sources: set<Event>

    /** The links lead to older events only, and `sources` follows them. */
    ghost predicate Founded()
      decreases height
    {
      && (parent != null ==> parent.height < height && parent.Founded())
      && (external != null ==> external.height < height && external.Founded())
      && sources == {this}
                    + (if parent != null then parent.sources else {})
                    + (if external != null then external.sources else {})
      && (forall e <- sources :: e == this || e.height < height)
    }

    constructor Plain()
      ensures Founded() && !flag && parent == null && external == null
      ensures sources == {this}
    {
      parent, external, height, flag := null, null, 0, false;
      sources := {this};
    }

    constructor FromParent(parent: Event, external: Event?)
      requires parent.Founded() && (external != null ==> external.Founded())
      ensures Founded() && !flag && this.parent == parent && this.external == external
      ensures sources == {this} + parent.sources + (if external != null then external.sources else {})
    {
      this.parent, this.external := parent, external;
      height := 1 + parent.height + (if external != null then external.height else 0);
      sources := {this} + parent.sources + (if external != null then external.sources else {});
      flag := false;
    }

    ghost predicate IsSet()
      requires Founded()
      reads sources
      decreases height
    {
      || flag
      || (external != null && external.IsSet())
      || (parent != null && parent.IsSet())
    }

    method CheckSet() returns (result: bool)
      requires Founded()
      ensures result == IsSet()
      decreases height
    {
      if flag {
        return true;
      }
      if external != null {
        result := external.CheckSet();
        if result {
          return;
        }
      }
      result := false;
      if parent != null {
        result := parent.CheckSet();
      }
    }

    /** Set if and only if something on the way up has its own flag set. */
    lemma {:induction false} SetBySomeSource()
      requires Founded()
      ensures IsSet() <==> exists e <- sources :: e.flag
      decreases height
    {
      if external != null {
        external.SetBySomeSource();
      }
      if parent != null {
        parent.SetBySomeSource();
      }
    }

    /** Setting an event changes exactly the events that listen to it. */
    method Set()
      requires Founded()
      modifies this`flag
      ensures flag
      ensures forall e: Event | old(allocated(e)) && e.Founded() ::
        e.IsSet() <==> (old(e.IsSet()) || this in e.sources)
    {
      forall e: Event | e.Founded()
        ensures e.IsSet() <==> exists s <- e.sources :: s.flag
      {
        e.SetBySomeSource();
      }
      flag := true;
      forall e: Event | e.Founded()
        ensures e.IsSet() <==> exists s <- e.sources :: s.flag
      {
        e.SetBySomeSource();
      }
    }
  }

  /** The part of a concurrency group that shutting down touches. */
  class GroupNode {
    const event: Event
    const parent: GroupNode?
    var children: seq<GroupNode>

    constructor Root()
      ensures Tree({this}) && parent == null && children == [] && fresh(event) && !event.flag
    {
      event := new Event.Plain();
      parent, children := null, [];
    }

    constructor Under(parent: GroupNode)
      requires parent.event.Founded()
      ensures this.parent == parent && children == [] && event.Founded() && event.parent == parent.event
      ensures fresh(event) && !event.flag
    {
      event := new Event.FromParent(parent.event, null);
      this.parent, children := parent, [];
    }

    /** The group hangs below its parent, and its children in the tree below it. */
    ghost predicate Linked(tree: set<GroupNode>)
      reads this
    {
      && event.Founded()
      && (parent != null ==> event.parent == parent.event)
      && forall c <- children :: c in tree && c.parent == this
    }

    /** A child can be added to any group of a tree, at whatever depth, and leaves a tree. */
    method MakeChild(ghost tree: set<GroupNode>) returns (child: GroupNode)
      requires Tree(tree) && this in tree
      modifies this
      ensures fresh(child) && fresh(child.event) && !child.event.flag
      ensures child.parent == this && child.children == []
      ensures children == old(children) + [child] && Tree(tree + {child})
    {
      child := new GroupNode.Under(this);
      children := children + [child];
    }

    /** The groups of the tree whose events listen to this one's. */
    ghost function Below(tree: set<GroupNode>): set<GroupNode> {
      set n <- tree | event in n.event.sources
    }

    ghost function EventsBelow(tree: set<GroupNode>): set<Event> {
      set n <- Below(tree) :: n.event
    }

    lemma {:induction false} ChildIsBelow(tree: set<GroupNode>, child: GroupNode)
      requires Tree(tree) && this in tree && child in children
      ensures child in tree && child.Below(tree) < Below(tree)
    {
      assert Linked(tree) && child.Linked(tree);
      forall n <- tree | child.event in n.event.sources
        ensures event in n.event.sources
      {
        assert n.Linked(tree);
        SourcesAreClosed(n.event, child.event);
      }
      assert this in Below(tree) && this !in child.Below(tree);
    }

    /** Sets the events of the children first, then the group's own. */
    method Shutdown(ghost tree: set<GroupNode>)
      requires Tree(tree) && this in tree
      modifies EventsBelow(tree)`flag
      ensures event.flag && forall c <- children :: c.event.flag
      ensures forall e: Event | old(allocated(e)) && old(e.flag) :: e.flag
      decreases Below(tree), 1
    {
      assert Linked(tree);
      for i := 0 to |children|
        invariant forall k :: 0 <= k < i ==> children[k].event.flag
        invariant forall e: Event | old(allocated(e)) && old(e.flag) :: e.flag
      {
        ShutdownChild(tree, children[i]);
      }
      assert this in Below(tree);
      event.flag := true;
    }

    method ShutdownChild(ghost tree: set<GroupNode>, child: GroupNode)
      requires Tree(tree) && this in tree && child in children
      modifies EventsBelow(tree)`flag
      ensures child.event.flag
      ensures forall e: Event | old(allocated(e)) && old(e.flag) :: e.flag
      decreases Below(tree), 0
    {
      ChildIsBelow(tree, child);
      child.Shutdown(tree);
    }
  }

  /** A set of groups that holds the children of its members. */
  ghost predicate Tree(tree: set<GroupNode>)
    reads tree
  {
    forall n <- tree :: n.Linked(tree)
  }

  /** Listening is transitive. */
  lemma {:induction false} SourcesAreClosed(a: Event, b: Event)
    requires a.Founded() && b in a.sources
    ensures b.Founded() && b.sources <= a.sources
    decreases a.height
  {
    if b != a {
      if a.parent != null && b in a.parent.sources {
        SourcesAreClosed(a.parent, b);
      } else {
        SourcesAreClosed(a.external, b);
      }
    }
  }

  /** Shutting a group down, at whatever depth of the tree, sets every event that hangs below it, whether a group's
      or the wrapped event of a process, and no other event. */
  method ShutdownReachesEverything(group: GroupNode, ghost tree: set<GroupNode>)
    requires Tree(tree) && group in tree
    modifies group.EventsBelow(tree)`flag
    ensures forall e: Event | old(allocated(e)) && e.Founded() ::
      e.IsSet() <==> (old(e.IsSet()) || group.event in e.sources)
  {
    assert group.Linked(tree) && group in group.Below(tree);
    forall e: Event | e.Founded()
      ensures e.IsSet() <==> exists s <- e.sources :: s.flag
      ensures group.event in e.sources <==> exists s <- e.sources :: s in group.EventsBelow(tree)
    {
      e.SetBySomeSource();
      if s :| s in e.sources && s in group.EventsBelow(tree) {
        SourcesAreClosed(e, s);
      }
    }
    group.Shutdown(tree);
    forall e: Event | old(allocated(e)) && e.Founded()
      ensures e.IsSet() <==> exists s <- e.sources :: s.flag
    {
      e.SetBySomeSource();
    }
  }

  /** A tree of three levels. */
  method BuildThreeLevels() returns (root: GroupNode, middle: GroupNode, bottom: GroupNode, ghost tree: set<GroupNode>)
    ensures Tree(tree) && root in tree && middle in tree && bottom in tree
    ensures root.children == [middle] && middle.children == [bottom]
    ensures !root.event.flag && !middle.event.flag && !bottom.event.flag
  {
    root := new GroupNode.Root();
    middle := root.MakeChild({root});
    tree := {root} + {middle};
    bottom := middle.MakeChild(tree);
    tree := tree + {bottom};
  }

  /** A process gets its own event below the group's, so setting it leaves every earlier event alone. */
  method WrapAndSet(group: Event, external: Event?) returns (wrapped: Event)
    requires group.Founded() && (external != null ==> external.Founded())
    ensures fresh(wrapped) && wrapped.Founded() && wrapped.IsSet() && group in wrapped.sources
    ensures forall e: Event | old(allocated(e)) && e.Founded() :: e.IsSet() == old(e.IsSet())
  {
    wrapped := new Event.FromParent(group, external);
    wrapped.flag := true;
  }
}
