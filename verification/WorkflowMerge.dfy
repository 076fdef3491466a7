/** Accumulating a workflow's progress tree from delta payloads. */
module WorkflowMerge {

  datatype Option<+T> = None | Some(value: T)

  /** `info` stands for the fields in which the newer entry simply wins. */
  datatype Entry =
    | Phase(index: int, info: int)
    | Agent(index: int, info: int, last: Option<string>, window: seq<string>)

  datatype Key = PhaseKey(index: int) | AgentKey(index: int)

  function KeyOf(e: Entry): Key {
    if e.Phase? then PhaseKey(e.index) else AgentKey(e.index)
  }

  const LIMIT: nat := 3

  // ---------------------------------------------------------------- the window of recent calls

  function LastFew(calls: seq<string>): seq<string> {
    if |calls| <= LIMIT then calls else calls[|calls| - LIMIT..]
  }

  function Push(window: seq<string>, call: string): seq<string> {
    if window == [] || window[|window| - 1] != call then LastFew(window + [call]) else window
  }

  function PushAll(window: seq<string>, calls: seq<string>): seq<string> {
    if calls == [] then window
    else Push(PushAll(window, calls[..|calls| - 1]), calls[|calls| - 1])
  }

  /** Runs of one call collapsed. */
  function Deduplicated(calls: seq<string>): seq<string> {
    if calls == [] then []
    else
      var before := Deduplicated(calls[..|calls| - 1]);
      if before != [] && before[|before| - 1] == calls[|calls| - 1] then before else before + [calls[|calls| - 1]]
  }

  /** What a window looks like: short, and no call twice in a row. */
  predicate Narrow(window: seq<string>) {
    && |window| <= LIMIT
    && forall i | 0 < i < |window| :: window[i - 1] != window[i]
  }

  lemma {:induction false} PushAllKeepsNarrow(window: seq<string>, calls: seq<string>)
    requires Narrow(window)
    ensures Narrow(PushAll(window, calls))
  {
    if calls != [] {
      PushAllKeepsNarrow(window, calls[..|calls| - 1]);
    }
  }

  lemma {:induction false} NarrowIsDeduplicated(window: seq<string>)
    requires forall i | 0 < i < |window| :: window[i - 1] != window[i]
    ensures Deduplicated(window) == window
  {
    if window != [] {
      NarrowIsDeduplicated(window[..|window| - 1]);
    }
  }

  lemma {:induction false} PushOnHistory(history: seq<string>, call: string)
    ensures Push(LastFew(history), call)
         == LastFew(if history != [] && history[|history| - 1] == call then history else history + [call])
  {
    if |history| > LIMIT {
      assert (history[|history| - LIMIT..] + [call])[1..] == (history + [call])[|history| + 1 - LIMIT..];
    }
  }

  /** The window holds the last three calls of the whole history once runs are collapsed, however the history was
      pushed. */
  lemma {:induction false} WindowIsLastOfHistory(window: seq<string>, calls: seq<string>)
    requires Narrow(window)
    ensures PushAll(window, calls) == LastFew(Deduplicated(window + calls))
  {
    if calls == [] {
      assert window + calls == window;
      NarrowIsDeduplicated(window);
    } else {
      var before, call := calls[..|calls| - 1], calls[|calls| - 1];
      WindowIsLastOfHistory(window, before);
      PushOnHistory(Deduplicated(window + before), call);
      DeduplicatedSnoc(window + before, call);
      assert window + calls == (window + before) + [call];
    }
  }

  lemma {:induction false} DeduplicatedSnoc(calls: seq<string>, call: string)
    ensures
      var before := Deduplicated(calls);
      Deduplicated(calls + [call])
      == if before != [] && before[|before| - 1] == call then before else before + [call]
  {
    assert (calls + [call])[..|calls|] == calls;
  }

  lemma {:induction false} PushAllConcat(window: seq<string>, a: seq<string>, b: seq<string>)
    ensures PushAll(window, a + b) == PushAll(PushAll(window, a), b)
  {
    if b == [] {
      assert a + b == a;
    } else {
      assert (a + b)[..|a + b| - 1] == a + b[..|b| - 1];
      PushAllConcat(window, a, b[..|b| - 1]);
    }
  }

  lemma {:induction false} PushAllEndsWithLast(window: seq<string>, calls: seq<string>)
    requires calls != []
    ensures var r := PushAll(window, calls); r != [] && r[|r| - 1] == calls[|calls| - 1]
  {
    PushEndsWith(PushAll(window, calls[..|calls| - 1]), calls[|calls| - 1]);
  }

  lemma {:induction false} PushEndsWith(window: seq<string>, call: string)
    ensures var r := Push(window, call); r != [] && r[|r| - 1] == call
  {
  }

  lemma {:induction false} PushAllSnoc(window: seq<string>, calls: seq<string>, call: string)
    ensures PushAll(window, calls + [call]) == Push(PushAll(window, calls), call)
  {
    assert (calls + [call])[..|calls|] == calls;
  }

  /** A full window overrides whatever came before. */
  lemma {:induction false} FullWindowOverrides(window: seq<string>, full: seq<string>)
    requires Narrow(full) && |full| == LIMIT
    ensures PushAll(window, full) == full
  {
    assert full == [full[0], full[1], full[2]];
    ThreeOverride(window, full[0], full[1], full[2]);
  }

  lemma {:induction false} ThreeOverride(window: seq<string>, a: string, b: string, c: string)
    requires a != b && b != c
    ensures PushAll(window, [a, b, c]) == [a, b, c]
  {
    PushThree(window, a, b, c);
    var one := Push(window, a);
    assert EndsWith(one, [a]);
    TwoMore(one, a, b, c);
  }

  lemma {:induction false} TwoMore(window: seq<string>, a: string, b: string, c: string)
    requires a != b && b != c && EndsWith(window, [a])
    ensures Push(Push(window, b), c) == [a, b, c]
  {
    PushExtends(window, [a], b);
    assert [a] + [b] == [a, b];
    PushExtends(Push(window, b), [a, b], c);
    assert [a, b] + [c] == [a, b, c];
  }

  predicate EndsWith(calls: seq<string>, suffix: seq<string>) {
    |suffix| <= |calls| && calls[|calls| - |suffix|..] == suffix
  }

  lemma {:induction false} PushExtends(window: seq<string>, suffix: seq<string>, call: string)
    requires 0 < |suffix| < LIMIT && EndsWith(window, suffix) && suffix[|suffix| - 1] != call
    ensures EndsWith(Push(window, call), suffix + [call])
    ensures |suffix| == LIMIT - 1 ==> Push(window, call) == suffix + [call]
  {
    assert window == window[..|window| - |suffix|] + suffix;
    assert window[|window| - 1] == suffix[|suffix| - 1];
  }

  lemma {:induction false} PushThree(window: seq<string>, a: string, b: string, c: string)
    ensures PushAll(window, [a, b, c]) == Push(Push(Push(window, a), b), c)
  {
    assert [a][..0] == [] && [a, b][..1] == [a] && [a, b, c][..2] == [a, b];
    assert PushAll(window, [a]) == Push(window, a);
    assert PushAll(window, [a, b]) == Push(Push(window, a), b);
  }

  /** Pushing a window that was accumulated elsewhere is pushing the calls it was accumulated from. */
  lemma {:induction false} PushingWindowIsPushingCalls(window: seq<string>, other: seq<string>, calls: seq<string>)
    requires Narrow(other)
    ensures PushAll(window, PushAll(other, calls)) == PushAll(window, other + calls)
  {
    if calls == [] {
      assert other + calls == other;
    } else {
      var call, before := calls[|calls| - 1], calls[..|calls| - 1];
      PushingWindowIsPushingCalls(window, other, before);
      PushAllKeepsNarrow(other, before);
      assert other + calls == (other + before) + [call];
      PushAllSnoc(window, other + before, call);
      PushingOneMore(window, PushAll(other, before), call);
    }
  }

  lemma {:induction false} PushingOneMore(window: seq<string>, inner: seq<string>, call: string)
    requires Narrow(inner)
    ensures PushAll(window, Push(inner, call)) == Push(PushAll(window, inner), call)
  {
    if inner != [] && inner[|inner| - 1] == call {
      PushAllEndsWithLast(window, inner);
    } else if |inner| < LIMIT {
      assert (inner + [call])[..|inner|] == inner;
    } else {
      FullWindowOverrides(window, inner);
      var next := LastFew(inner + [call]);
      assert next == [inner[1], inner[2], call];
      FullWindowOverrides(window, next);
    }
  }

  // ---------------------------------------------------------------- one entry

  function CallIn(last: Option<string>): seq<string> {
    if last.Some? && last.value != "" then [last.value] else []
  }

  /** The calls an agent entry brings: its own window, or else its latest call. */
  function Incoming(e: Entry): seq<string>
    requires e.Agent?
  {
    if e.window != [] then e.window else CallIn(e.last)
  }

  function WindowOf(previous: Option<Entry>): seq<string> {
    if previous.Some? && previous.value.Agent? then previous.value.window else []
  }

  function Absorb(previous: Option<Entry>, e: Entry): Entry {
    if e.Agent? then e.(window := PushAll(WindowOf(previous), Incoming(e))) else e
  }

  /** An entry as merging leaves it: the latest call, if any, is in the window. */
  predicate Settled(e: Entry) {
    e.Agent? ==> Narrow(e.window) && (CallIn(e.last) != [] ==> e.window != [])
  }

  lemma {:induction false} AbsorbSettles(previous: Option<Entry>, e: Entry)
    requires previous.Some? ==> Settled(previous.value)
    ensures Settled(Absorb(previous, e)) && KeyOf(Absorb(previous, e)) == KeyOf(e)
  {
    if e.Agent? {
      PushAllKeepsNarrow(WindowOf(previous), Incoming(e));
      if Incoming(e) != [] {
        PushAllEndsWithLast(WindowOf(previous), Incoming(e));
      }
    }
  }

  lemma {:induction false} AbsorbTwice(previous: Option<Entry>, middle: Entry, e: Entry)
    requires KeyOf(middle) == KeyOf(e) && Settled(middle)
    ensures Absorb(previous, Absorb(Some(middle), e)) == Absorb(Some(Absorb(previous, middle)), e)
  {
    if e.Agent? {
      PushingWindowIsPushingCalls(WindowOf(previous), middle.window, Incoming(e));
      PushAllConcat(WindowOf(previous), middle.window, Incoming(e));
      if Incoming(e) != [] {
        PushAllEndsWithLast(middle.window, Incoming(e));
      }
    }
  }

  lemma {:induction false} AbsorbFresh(previous: Option<Entry>, e: Entry)
    ensures Absorb(previous, Absorb(None, e)) == Absorb(previous, e)
  {
    if e.Agent? {
      PushingWindowIsPushingCalls(WindowOf(previous), [], Incoming(e));
      assert [] + Incoming(e) == Incoming(e);
      if Incoming(e) != [] {
        PushAllEndsWithLast([], Incoming(e));
      }
    }
  }

  // ---------------------------------------------------------------- the tree

  /** Overwrites the entry with the same key where it stands, or appends. */
  function Put(tree: seq<Entry>, e: Entry): seq<Entry> {
    if tree == [] then [e]
    else if KeyOf(tree[0]) == KeyOf(e) then [e] + tree[1..]
    else [tree[0]] + Put(tree[1..], e)
  }

  function Lookup(tree: seq<Entry>, k: Key): Option<Entry> {
    if tree == [] then None
    else if KeyOf(tree[0]) == k then Some(tree[0])
    else Lookup(tree[1..], k)
  }

  function FromList(entries: seq<Entry>): seq<Entry> {
    if entries == [] then []
    else Put(FromList(entries[..|entries| - 1]), entries[|entries| - 1])
  }

  function Absorbing(tree: seq<Entry>, delta: seq<Entry>): seq<Entry> {
    if delta == [] then tree
    else
      var before := Absorbing(tree, delta[..|delta| - 1]);
      var e := delta[|delta| - 1];
      Put(before, Absorb(Lookup(before, KeyOf(e)), e))
  }

  function Merged(existing: seq<Entry>, delta: seq<Entry>): seq<Entry> {
    Absorbing(FromList(existing), delta)
  }

  predicate UniqueKeys(tree: seq<Entry>) {
    forall i, j | 0 <= i < j < |tree| :: KeyOf(tree[i]) != KeyOf(tree[j])
  }

  predicate IsTree(tree: seq<Entry>) {
    UniqueKeys(tree) && forall e <- tree :: Settled(e)
  }

  function Keys(tree: seq<Entry>): seq<Key> {
    seq(|tree|, i requires 0 <= i < |tree| => KeyOf(tree[i]))
  }

  lemma {:induction false} PutSnoc(tree: seq<Entry>, m: Entry, e: Entry)
    ensures Lookup(tree, KeyOf(e)).Some? ==> Put(tree + [m], e) == Put(tree, e) + [m]
    ensures Lookup(tree, KeyOf(e)).None? ==>
      Put(tree, e) == tree + [e] && Put(tree + [m], e) == if KeyOf(m) == KeyOf(e) then tree + [e] else tree + [m, e]
  {
    if tree == [] {
      assert [m] == [] + [m];
      assert Put([], e) == [e];
    } else {
      assert (tree + [m])[0] == tree[0] && (tree + [m])[1..] == tree[1..] + [m];
      PutSnoc(tree[1..], m, e);
      var rest := Put(tree[1..], e);
      assert [tree[0]] + (rest + [m]) == [tree[0]] + rest + [m];
      assert [e] + (tree[1..] + [m]) == [e] + tree[1..] + [m];
      assert [tree[0]] + (tree[1..] + [e]) == tree + [e];
      assert [tree[0]] + (tree[1..] + [m, e]) == tree + [m, e];
    }
  }

  lemma {:induction false} LookupPut(tree: seq<Entry>, e: Entry, k: Key)
    ensures Lookup(Put(tree, e), k) == if k == KeyOf(e) then Some(e) else Lookup(tree, k)
  {
    if tree != [] {
      LookupPut(tree[1..], e, k);
      assert ([tree[0]] + Put(tree[1..], e))[1..] == Put(tree[1..], e);
      assert ([e] + tree[1..])[1..] == tree[1..];
    }
  }

  lemma {:induction false} PutTwice(tree: seq<Entry>, a: Entry, b: Entry)
    requires KeyOf(a) == KeyOf(b)
    ensures Put(Put(tree, a), b) == Put(tree, b)
  {
    if tree != [] {
      PutTwice(tree[1..], a, b);
      assert ([tree[0]] + Put(tree[1..], a))[1..] == Put(tree[1..], a);
      assert ([a] + tree[1..])[1..] == tree[1..];
    }
  }

  lemma {:induction false} PutsCommute(tree: seq<Entry>, a: Entry, b: Entry)
    requires KeyOf(a) != KeyOf(b) && Lookup(tree, KeyOf(a)).Some?
    ensures Put(Put(tree, a), b) == Put(Put(tree, b), a)
  {
    var rest := tree[1..];
    assert ([a] + rest)[1..] == rest && ([b] + rest)[1..] == rest;
    assert ([tree[0]] + Put(rest, a))[1..] == Put(rest, a) && ([tree[0]] + Put(rest, b))[1..] == Put(rest, b);
    assert ([b] + Put(rest, a))[1..] == Put(rest, a) && ([a] + Put(rest, b))[1..] == Put(rest, b);
    if KeyOf(tree[0]) != KeyOf(a) {
      if KeyOf(tree[0]) != KeyOf(b) {
        PutsCommute(rest, a, b);
      }
    }
  }

  lemma {:induction false} LookupKey(tree: seq<Entry>, k: Key)
    ensures Lookup(tree, k).Some? ==> Lookup(tree, k).value in tree && KeyOf(Lookup(tree, k).value) == k
    ensures Lookup(tree, k).None? <==> forall e <- tree :: KeyOf(e) != k
  {
    if tree != [] {
      LookupKey(tree[1..], k);
      assert tree == [tree[0]] + tree[1..];
    }
  }

  /** Keys: an entry that reappears keeps its place, a new one goes to the end. */
  lemma {:induction false} PutKeys(tree: seq<Entry>, e: Entry)
    ensures Keys(Put(tree, e)) == if KeyOf(e) in Keys(tree) then Keys(tree) else Keys(tree) + [KeyOf(e)]
    ensures KeyOf(e) in Keys(tree) <==> Lookup(tree, KeyOf(e)).Some?
  {
    if tree != [] {
      PutKeys(tree[1..], e);
      assert Keys(tree) == [KeyOf(tree[0])] + Keys(tree[1..]);
      if KeyOf(tree[0]) == KeyOf(e) {
        assert Keys([e] + tree[1..]) == [KeyOf(e)] + Keys(tree[1..]);
        assert KeyOf(e) == Keys(tree)[0];
      } else {
        assert Keys([tree[0]] + Put(tree[1..], e)) == [KeyOf(tree[0])] + Keys(Put(tree[1..], e));
      }
    }
  }

  predicate Distinct(keys: seq<Key>) {
    forall i, j | 0 <= i < j < |keys| :: keys[i] != keys[j]
  }

  lemma {:induction false} UniqueIsDistinct(tree: seq<Entry>)
    ensures UniqueKeys(tree) <==> Distinct(Keys(tree))
  {
    if Distinct(Keys(tree)) {
      forall i, j | 0 <= i < j < |tree|
        ensures KeyOf(tree[i]) != KeyOf(tree[j])
      {
        assert Keys(tree)[i] != Keys(tree)[j];
      }
    }
  }

  lemma {:induction false} PutKeepsUnique(tree: seq<Entry>, e: Entry)
    requires UniqueKeys(tree)
    ensures UniqueKeys(Put(tree, e))
  {
    PutKeys(tree, e);
    UniqueIsDistinct(tree);
    UniqueIsDistinct(Put(tree, e));
  }

  lemma {:induction false} PutEntries(tree: seq<Entry>, e: Entry)
    ensures forall x <- Put(tree, e) :: x == e || x in tree
  {
    if tree != [] {
      PutEntries(tree[1..], e);
    }
  }

  lemma {:induction false} FromListUnique(entries: seq<Entry>)
    ensures UniqueKeys(FromList(entries)) && forall e <- FromList(entries) :: e in entries
  {
    if entries != [] {
      var before := entries[..|entries| - 1];
      FromListUnique(before);
      PutKeepsUnique(FromList(before), entries[|entries| - 1]);
      PutEntries(FromList(before), entries[|entries| - 1]);
    }
  }

  lemma {:induction false} FromTree(tree: seq<Entry>)
    requires UniqueKeys(tree)
    ensures FromList(tree) == tree
  {
    if tree != [] {
      var before, e := tree[..|tree| - 1], tree[|tree| - 1];
      FromTree(before);
      assert tree == before + [e];
      LastIsFound(before, e);
      PutSnoc(before, e, e);
    }
  }

  lemma {:induction false} AbsorbingKeepsTree(tree: seq<Entry>, delta: seq<Entry>)
    requires UniqueKeys(tree)
    ensures UniqueKeys(Absorbing(tree, delta))
    ensures (forall e <- tree :: Settled(e)) ==> forall e <- Absorbing(tree, delta) :: Settled(e)
  {
    if delta != [] {
      var before, e := Absorbing(tree, delta[..|delta| - 1]), delta[|delta| - 1];
      AbsorbingKeepsTree(tree, delta[..|delta| - 1]);
      var x := Absorb(Lookup(before, KeyOf(e)), e);
      LookupKey(before, KeyOf(e));
      PutKeepsUnique(before, x);
      PutEntries(before, x);
      if forall m <- tree :: Settled(m) {
        AbsorbSettles(Lookup(before, KeyOf(e)), e);
      }
    }
  }

  /** Whatever payloads arrive, what has been accumulated from nothing is a tree: keys are unique, and every
      window is short, has no call twice in a row, and is not empty when there is a latest call. */
  lemma {:induction false} AccumulatedIsTree(existing: seq<Entry>, delta: seq<Entry>)
    ensures UniqueKeys(Merged(existing, delta))
    ensures IsTree(existing) ==> IsTree(Merged(existing, delta))
  {
    FromListUnique(existing);
    AbsorbingKeepsTree(FromList(existing), delta);
    if IsTree(existing) {
      FromTree(existing);
    }
  }

  lemma {:induction false} AbsorbingSnoc(tree: seq<Entry>, delta: seq<Entry>, e: Entry)
    ensures
      var before := Absorbing(tree, delta);
      Absorbing(tree, delta + [e]) == Put(before, Absorb(Lookup(before, KeyOf(e)), e))
  {
    assert (delta + [e])[..|delta|] == delta;
  }

  /** Replacing an entry of the delta by what a further entry makes of it is absorbing the further entry last. */
  lemma {:induction false} AbsorbInside(tree: seq<Entry>, middle: seq<Entry>, m: Entry, c: Entry)
    requires UniqueKeys(middle) && Lookup(middle, KeyOf(c)) == Some(m) && Settled(m)
    ensures Lookup(Absorbing(tree, middle), KeyOf(c)).Some?
    ensures
      var done := Absorbing(tree, middle);
      Absorbing(tree, Put(middle, Absorb(Some(m), c))) == Put(done, Absorb(Lookup(done, KeyOf(c)), c))
    decreases |middle|
  {
    var before, e := middle[..|middle| - 1], middle[|middle| - 1];
    assert middle == before + [e];
    if KeyOf(e) == KeyOf(c) {
      AbsorbAtEnd(tree, before, m, c, e);
    } else {
      LookupSnoc(before, e, KeyOf(c));
      AbsorbInside(tree, before, m, c);
      AbsorbEarlier(tree, before, m, c, e);
    }
  }

  lemma {:induction false} AbsorbAtEnd(tree: seq<Entry>, before: seq<Entry>, m: Entry, c: Entry, e: Entry)
    requires UniqueKeys(before + [e]) && Lookup(before + [e], KeyOf(c)) == Some(m) && Settled(m)
    requires KeyOf(e) == KeyOf(c)
    ensures Lookup(Absorbing(tree, before + [e]), KeyOf(c)).Some?
    ensures
      var done := Absorbing(tree, before + [e]);
      Absorbing(tree, Put(before + [e], Absorb(Some(m), c))) == Put(done, Absorb(Lookup(done, KeyOf(c)), c))
  {
    var k, x, t := KeyOf(c), Absorb(Some(m), c), Absorbing(tree, before);
    LastIsFound(before, e);
    LookupKey(before, k);
    PutSnoc(before, e, x);
    AbsorbingSnoc(tree, before, e);
    AbsorbingSnoc(tree, before, x);
    var absorbed := Absorb(Lookup(t, k), e);
    LookupPut(t, absorbed, k);
    AbsorbTwice(Lookup(t, k), m, c);
    PutTwice(t, absorbed, Absorb(Some(absorbed), c));
  }

  lemma {:induction false} LastIsFound(before: seq<Entry>, e: Entry)
    requires UniqueKeys(before + [e])
    ensures Lookup(before, KeyOf(e)).None? && Lookup(before + [e], KeyOf(e)) == Some(e)
  {
    LookupKey(before, KeyOf(e));
    LookupKey(before + [e], KeyOf(e));
    assert (before + [e])[|before|] == e;
    forall x <- before
      ensures KeyOf(x) != KeyOf(e)
    {
      var i :| 0 <= i < |before| && before[i] == x;
      assert (before + [e])[i] == x;
    }
  }

  lemma {:induction false} AbsorbEarlier(tree: seq<Entry>, before: seq<Entry>, m: Entry, c: Entry, e: Entry)
    requires Lookup(before, KeyOf(c)) == Some(m) && KeyOf(e) != KeyOf(c)
    requires Lookup(Absorbing(tree, before), KeyOf(c)).Some?
    requires Absorbing(tree, Put(before, Absorb(Some(m), c)))
          == Put(Absorbing(tree, before), Absorb(Lookup(Absorbing(tree, before), KeyOf(c)), c))
    ensures Lookup(Absorbing(tree, before + [e]), KeyOf(c)).Some?
    ensures
      var done := Absorbing(tree, before + [e]);
      Absorbing(tree, Put(before + [e], Absorb(Some(m), c))) == Put(done, Absorb(Lookup(done, KeyOf(c)), c))
  {
    var k, x, t := KeyOf(c), Absorb(Some(m), c), Absorbing(tree, before);
    PutSnoc(before, e, x);
    AbsorbingSnoc(tree, before, e);
    AbsorbingSnoc(tree, Put(before, x), e);
    var absorbed := Absorb(Lookup(t, KeyOf(e)), e);
    var z := Absorb(Lookup(t, k), c);
    LookupPut(t, absorbed, k);
    LookupPut(t, z, KeyOf(e));
    PutsCommute(t, z, absorbed);
  }

  lemma {:induction false} LookupSnoc(tree: seq<Entry>, e: Entry, k: Key)
    requires KeyOf(e) != k
    ensures Lookup(tree + [e], k) == Lookup(tree, k)
  {
    if tree != [] {
      assert (tree + [e])[1..] == tree[1..] + [e];
      LookupSnoc(tree[1..], e, k);
    }
  }

  lemma {:induction false} AbsorbingTwice(tree: seq<Entry>, middle: seq<Entry>, delta: seq<Entry>)
    requires IsTree(middle)
    ensures Absorbing(tree, Absorbing(middle, delta)) == Absorbing(Absorbing(tree, middle), delta)
    decreases |delta|
  {
    if delta != [] {
      var before, c := delta[..|delta| - 1], delta[|delta| - 1];
      AbsorbingTwice(tree, middle, before);
      AbsorbingKeepsTree(middle, before);
      var inner := Absorbing(middle, before);
      var previous := Lookup(inner, KeyOf(c));
      LookupKey(inner, KeyOf(c));
      if previous.Some? {
        AbsorbInside(tree, inner, previous.value, c);
      } else {
        PutSnoc(inner, c, Absorb(None, c));
        AbsorbingSnoc(tree, inner, Absorb(None, c));
        AbsorbFresh(Lookup(Absorbing(tree, inner), KeyOf(c)), c);
      }
    }
  }

  /** Batching is invisible: merging payloads into each other first and the result into the tree afterwards is
      merging them one after the other, entry order and windows included. */
  lemma {:induction false} MergingIsAssociative(a: seq<Entry>, b: seq<Entry>, c: seq<Entry>)
    requires IsTree(b)
    ensures Merged(a, Merged(b, c)) == Merged(Merged(a, b), c)
  {
    FromTree(b);
    AbsorbingTwice(FromList(a), b, c);
    FromListUnique(a);
    AbsorbingKeepsTree(FromList(a), b);
    FromTree(Absorbing(FromList(a), b));
  }

  /** In particular, a payload may be deduplicated on its own before it is merged, whatever it holds. */
  lemma {:induction false} PremergingIsInvisible(existing: seq<Entry>, delta: seq<Entry>)
    ensures Merged(existing, Merged([], delta)) == Merged(existing, delta)
  {
    MergingIsAssociative(existing, [], delta);
    AccumulatedIsTree(existing, []);
    FromTree(Merged(existing, []));
  }

  // ---------------------------------------------------------------- what a reader of the tree can rely on

  lemma {:induction false} AbsorbingSnocKeys(tree: seq<Entry>, delta: seq<Entry>)
    requires delta != []
    ensures
      var before, k := Keys(Absorbing(tree, delta[..|delta| - 1])), KeyOf(delta[|delta| - 1]);
      Keys(Absorbing(tree, delta)) == if k in before then before else before + [k]
  {
    var t, e := Absorbing(tree, delta[..|delta| - 1]), delta[|delta| - 1];
    PutKeys(t, Absorb(Lookup(t, KeyOf(e)), e));
  }

  lemma {:induction false} AbsorbingKeepsPlaces(tree: seq<Entry>, delta: seq<Entry>)
    ensures Keys(tree) <= Keys(Absorbing(tree, delta))
    ensures forall k :: k in Keys(Absorbing(tree, delta)) <==> k in Keys(tree) || k in Keys(delta)
  {
    if delta != [] {
      AbsorbingKeepsPlaces(tree, delta[..|delta| - 1]);
      AbsorbingSnocKeys(tree, delta);
      assert Keys(delta) == Keys(delta[..|delta| - 1]) + [KeyOf(delta[|delta| - 1])];
    }
  }

  /** Rows do not move: the keys of the tree come first, in their old order, and the others after them. */
  lemma {:induction false} RowsKeepTheirPlaces(existing: seq<Entry>, delta: seq<Entry>)
    requires UniqueKeys(existing)
    ensures Keys(existing) <= Keys(Merged(existing, delta))
    ensures forall k :: k in Keys(Merged(existing, delta)) <==> k in Keys(existing) || k in Keys(delta)
  {
    FromTree(existing);
    AbsorbingKeepsPlaces(existing, delta);
  }

  /** The calls the payload brings for one agent, in order. */
  function CallsFor(delta: seq<Entry>, k: Key): seq<string> {
    if delta == [] then []
    else
      var e := delta[|delta| - 1];
      CallsFor(delta[..|delta| - 1], k) + if e.Agent? && KeyOf(e) == k then Incoming(e) else []
  }

  lemma {:induction false} AbsorbingCollectsCalls(tree: seq<Entry>, delta: seq<Entry>, k: Key)
    ensures WindowOf(Lookup(Absorbing(tree, delta), k)) == PushAll(WindowOf(Lookup(tree, k)), CallsFor(delta, k))
    decreases |delta|
  {
    if delta != [] {
      var before, e := delta[..|delta| - 1], delta[|delta| - 1];
      AbsorbingCollectsCalls(tree, before, k);
      var t := Absorbing(tree, before);
      LookupPut(t, Absorb(Lookup(t, KeyOf(e)), e), k);
      LookupKey(t, k);
      PushAllConcat(WindowOf(Lookup(tree, k)), CallsFor(before, k),
                    if e.Agent? && KeyOf(e) == k then Incoming(e) else []);
    }
  }

  /** The last entry a payload has for a key. */
  function LastFor(delta: seq<Entry>, k: Key): Option<Entry> {
    if delta == [] then None
    else if KeyOf(delta[|delta| - 1]) == k then Some(delta[|delta| - 1])
    else LastFor(delta[..|delta| - 1], k)
  }

  /** The two entries differ at most in their windows. */
  predicate SameButWindow(a: Entry, b: Entry) {
    if a.Agent? && b.Agent? then a.(window := b.window) == b else a == b
  }

  lemma {:induction false} AbsorbingKeepsLast(tree: seq<Entry>, delta: seq<Entry>, k: Key)
    ensures
      var found := Lookup(Absorbing(tree, delta), k);
      match LastFor(delta, k)
      case None => found == Lookup(tree, k)
      case Some(e) => found.Some? && SameButWindow(found.value, e)
    decreases |delta|
  {
    if delta != [] {
      var before, e := delta[..|delta| - 1], delta[|delta| - 1];
      AbsorbingKeepsLast(tree, before, k);
      var t := Absorbing(tree, before);
      LookupPut(t, Absorb(Lookup(t, KeyOf(e)), e), k);
    }
  }

  /** The payload wins: what it says last about a row is shown, window apart, and other rows are left alone. */
  lemma {:induction false} PayloadWins(existing: seq<Entry>, delta: seq<Entry>, k: Key)
    requires UniqueKeys(existing)
    ensures
      var found := Lookup(Merged(existing, delta), k);
      match LastFor(delta, k)
      case None => found == Lookup(existing, k)
      case Some(e) => found.Some? && SameButWindow(found.value, e)
  {
    FromTree(existing);
    AbsorbingKeepsLast(existing, delta, k);
  }

  /** An agent's window is the last three of all its calls, runs collapsed; so it ends with the latest one. */
  lemma {:induction false} WindowShowsLatestCalls(existing: seq<Entry>, delta: seq<Entry>, k: Key)
    requires IsTree(existing)
    ensures
      var window := WindowOf(Lookup(Merged(existing, delta), k));
      var calls := CallsFor(delta, k);
      && window == LastFew(Deduplicated(WindowOf(Lookup(existing, k)) + calls))
      && (calls != [] ==> window != [] && window[|window| - 1] == calls[|calls| - 1])
  {
    FromTree(existing);
    AbsorbingCollectsCalls(existing, delta, k);
    LookupKey(existing, k);
    WindowIsLastOfHistory(WindowOf(Lookup(existing, k)), CallsFor(delta, k));
    if CallsFor(delta, k) != [] {
      PushAllEndsWithLast(WindowOf(Lookup(existing, k)), CallsFor(delta, k));
    }
  }

  // ---------------------------------------------------------------- one entry at a time, field by field

  /** Phases and agents are numbered separately. */
  predicate SameRow(a: Entry, b: Entry) {
    a.Phase? == b.Phase? && a.index == b.index
  }

  /** What a call does to a window: it is added at the end unless it is there already, and the window keeps three. */
  predicate TakesCall(after: seq<string>, before: seq<string>, call: string) {
    if before != [] && before[|before| - 1] == call then after == before
    else if |before| < 3 then after == before + [call]
    else after == before[|before| - 2..] + [call]
  }

  /** What a delta entry does to an agent's window: it takes the entry's own calls if it has any, otherwise its
      latest call if that is not empty, otherwise none. */
  predicate TakesCallsOf(after: seq<string>, before: seq<string>, e: Entry)
    requires e.Agent?
  {
    if e.window != [] then after == LastFew(Deduplicated(before + e.window)) && after != []
                           && after[|after| - 1] == e.window[|e.window| - 1]
    else if e.last.Some? && e.last.value != "" then TakesCall(after, before, e.last.value)
    else after == before
  }

  /** `row` shows what `e` says, and carries the calls of the row it replaces forward. */
  predicate Shows(row: Entry, e: Entry, before: seq<string>) {
    if e.Phase? then row == e
    else row.Agent? && row.index == e.index && row.info == e.info && row.last == e.last
         && TakesCallsOf(row.window, before, e)
  }

  lemma {:induction false} AbsorbShows(previous: Option<Entry>, e: Entry)
    requires previous.Some? ==> Settled(previous.value)
    ensures Shows(Absorb(previous, e), e, WindowOf(previous))
  {
    if e.Agent? {
      var before := WindowOf(previous);
      if e.window != [] {
        WindowIsLastOfHistory(before, e.window);
        PushAllEndsWithLast(before, e.window);
      } else if e.last.Some? && e.last.value != "" {
        assert [e.last.value][..0] == [];
        assert PushAll(before, [e.last.value]) == Push(before, e.last.value);
        if |before| == LIMIT {
          assert (before + [e.last.value])[1..] == before[1..] + [e.last.value];
        }
      }
    }
  }

  lemma {:induction false} PutAt(tree: seq<Entry>, e: Entry)
    requires UniqueKeys(tree)
    ensures forall i | 0 <= i < |tree| && KeyOf(tree[i]) == KeyOf(e) :: Put(tree, e) == tree[i := e]
    ensures (forall i | 0 <= i < |tree| :: KeyOf(tree[i]) != KeyOf(e)) ==> Put(tree, e) == tree + [e]
  {
    if tree != [] && KeyOf(tree[0]) != KeyOf(e) {
      assert UniqueKeys(tree[1..]);
      PutAt(tree[1..], e);
    }
  }

  lemma {:induction false} AbsorbingOne(tree: seq<Entry>, e: Entry)
    ensures Absorbing(tree, [e]) == Put(tree, Absorb(Lookup(tree, KeyOf(e)), e))
  {
    assert [e][..0] == [];
    assert Absorbing(tree, [e][..0]) == tree;
  }

  /** Merging one entry into a tree: the row of the same kind and number is replaced where it stands, a new row goes
      to the end, and every other row stays as it is. */
  lemma {:induction false} MergingOneEntry(existing: seq<Entry>, e: Entry)
    requires IsTree(existing)
    ensures
      var merged := Merged(existing, [e]);
      && (forall i | 0 <= i < |existing| && SameRow(existing[i], e) ::
            && |merged| == |existing| && merged == existing[i := merged[i]]
            && Shows(merged[i], e, if e.Agent? then existing[i].window else []))
      && ((forall i | 0 <= i < |existing| :: !SameRow(existing[i], e)) ==>
            && |merged| == |existing| + 1 && merged[..|existing|] == existing
            && Shows(merged[|existing|], e, []))
  {
    FromTree(existing);
    AbsorbingOne(existing, e);
    var previous := Lookup(existing, KeyOf(e));
    LookupKey(existing, KeyOf(e));
    AbsorbShows(previous, e);
    AbsorbSettles(previous, e);
    PutAt(existing, Absorb(previous, e));
    assert Merged(existing, [e]) == Put(existing, Absorb(previous, e));
  }

  /** A payload is merged entry by entry. */
  lemma {:induction false} MergingIsStepwise(existing: seq<Entry>, delta: seq<Entry>, e: Entry)
    requires IsTree(existing)
    ensures Merged(existing, []) == existing
    ensures IsTree(Merged(existing, delta))
    ensures Merged(existing, delta + [e]) == Merged(Merged(existing, delta), [e])
  {
    FromTree(existing);
    AccumulatedIsTree(existing, delta);
    FromTree(Merged(existing, delta));
    AbsorbingOne(Merged(existing, delta), e);
    assert (delta + [e])[..|delta|] == delta;
  }

  // ---------------------------------------------------------------- the merge as the program runs it

  /** An insertion-ordered dictionary holding the tree. */
  ghost predicate Represents(order: seq<Key>, entryByKey: map<Key, Entry>, tree: seq<Entry>) {
    && UniqueKeys(tree) && order == Keys(tree)
    && (forall k :: k in entryByKey <==> k in order)
    && forall e <- tree :: KeyOf(e) in entryByKey && entryByKey[KeyOf(e)] == e
  }

  lemma {:induction false} StoringPuts(order: seq<Key>, entryByKey: map<Key, Entry>, tree: seq<Entry>, e: Entry)
    requires Represents(order, entryByKey, tree)
    ensures Represents(if KeyOf(e) in entryByKey then order else order + [KeyOf(e)], entryByKey[KeyOf(e) := e],
                       Put(tree, e))
  {
    PutKeys(tree, e);
    PutKeepsUnique(tree, e);
    KeysOfStored(order, entryByKey, tree);
    forall x <- Put(tree, e)
      ensures KeyOf(x) in entryByKey[KeyOf(e) := e] && entryByKey[KeyOf(e) := e][KeyOf(x)] == x
    {
      EntryStored(entryByKey, tree, e, x);
    }
  }

  lemma {:induction false} KeysOfStored(order: seq<Key>, entryByKey: map<Key, Entry>, tree: seq<Entry>)
    requires Represents(order, entryByKey, tree)
    ensures forall k :: k in entryByKey <==> k in Keys(tree)
  {
  }

  lemma {:induction false} EntryStored(entryByKey: map<Key, Entry>, tree: seq<Entry>, e: Entry, x: Entry)
    requires UniqueKeys(tree) && x in Put(tree, e)
    requires forall y <- tree :: KeyOf(y) in entryByKey && entryByKey[KeyOf(y)] == y
    ensures KeyOf(x) in entryByKey[KeyOf(e) := e] && entryByKey[KeyOf(e) := e][KeyOf(x)] == x
  {
    PutKeepsUnique(tree, e);
    PutEntries(tree, e);
    var i :| 0 <= i < |Put(tree, e)| && Put(tree, e)[i] == x;
    LookupAt(Put(tree, e), i);
    LookupPut(tree, e, KeyOf(x));
  }

  lemma {:induction false} LookupAt(tree: seq<Entry>, i: nat)
    requires UniqueKeys(tree) && i < |tree|
    ensures Lookup(tree, KeyOf(tree[i])) == Some(tree[i])
  {
    if i > 0 {
      LookupAt(tree[1..], i - 1);
    }
  }

  lemma {:induction false} LookupIsStored(order: seq<Key>, entryByKey: map<Key, Entry>, tree: seq<Entry>, k: Key)
    requires Represents(order, entryByKey, tree)
    ensures Lookup(tree, k) == if k in entryByKey then Some(entryByKey[k]) else None
  {
    LookupKey(tree, k);
    if k in entryByKey {
      var i :| 0 <= i < |order| && order[i] == k;
      LookupAt(tree, i);
    } else {
      KeyInKeys(tree, k);
    }
  }

  lemma {:induction false} KeyInKeys(tree: seq<Entry>, k: Key)
    ensures k in Keys(tree) <==> exists e <- tree :: KeyOf(e) == k
  {
    if e :| e in tree && KeyOf(e) == k {
      var i :| 0 <= i < |tree| && tree[i] == e;
      assert Keys(tree)[i] == k;
    }
  }

  method PushCalls(window: seq<string>, incoming: seq<string>) returns (summaries: seq<string>)
    ensures summaries == PushAll(window, incoming)
  {
    summaries := window;
    for i := 0 to |incoming|
      invariant summaries == PushAll(window, incoming[..i])
    {
      assert incoming[..i + 1][..i] == incoming[..i];
      if summaries == [] || summaries[|summaries| - 1] != incoming[i] {
        summaries := summaries + [incoming[i]];
        if |summaries| > LIMIT {
          summaries := summaries[|summaries| - LIMIT..];
        }
      }
    }
    assert incoming[..|incoming|] == incoming;
  }

  /** The entry with the agent's window carried forward. */
  method CarryForward(previous: Option<Entry>, entry: Entry) returns (carried: Entry)
    ensures carried == Absorb(previous, entry)
  {
    carried := entry;
    if entry.Agent? {
      var summaries := if previous.Some? && previous.value.Agent? then previous.value.window else [];
      var incoming := if entry.window != [] then entry.window
                      else if entry.last.Some? && entry.last.value != "" then [entry.last.value] else [];
      summaries := PushCalls(summaries, incoming);
      if summaries != entry.window {
        carried := entry.(window := summaries);
      }
    }
  }

  method Merge(existing: seq<Entry>, delta: seq<Entry>) returns (merged: seq<Entry>)
    ensures merged == Merged(existing, delta)
  {
    var order: seq<Key> := [];
    var entryByKey: map<Key, Entry> := map[];
    for i := 0 to |existing|
      invariant Represents(order, entryByKey, FromList(existing[..i]))
    {
      assert existing[..i + 1][..i] == existing[..i];
      StoringPuts(order, entryByKey, FromList(existing[..i]), existing[i]);
      order, entryByKey := Stored(order, entryByKey, existing[i]);
    }
    assert existing[..|existing|] == existing;
    for i := 0 to |delta|
      invariant Represents(order, entryByKey, Absorbing(FromList(existing), delta[..i]))
    {
      assert delta[..i + 1][..i] == delta[..i];
      ghost var tree := Absorbing(FromList(existing), delta[..i]);
      LookupIsStored(order, entryByKey, tree, KeyOf(delta[i]));
      var entry := CarryForward(if KeyOf(delta[i]) in entryByKey then Some(entryByKey[KeyOf(delta[i])]) else None,
                                delta[i]);
      StoringPuts(order, entryByKey, tree, entry);
      order, entryByKey := Stored(order, entryByKey, entry);
    }
    assert delta[..|delta|] == delta;
    merged := Values(order, entryByKey, Merged(existing, delta));
  }

  method Values(order: seq<Key>, entryByKey: map<Key, Entry>, ghost tree: seq<Entry>) returns (values: seq<Entry>)
    requires Represents(order, entryByKey, tree)
    ensures values == tree
  {
    values := [];
    for i := 0 to |order|
      invariant values == tree[..i]
    {
      assert tree[i] in tree && order[i] == KeyOf(tree[i]);
      values := values + [entryByKey[order[i]]];
    }
  }

  method Stored(order: seq<Key>, entryByKey: map<Key, Entry>, e: Entry)
    returns (newOrder: seq<Key>, newEntries: map<Key, Entry>)
    ensures newOrder == if KeyOf(e) in entryByKey then order else order + [KeyOf(e)]
    ensures newEntries == entryByKey[KeyOf(e) := e]
  {
    newOrder := order;
    if KeyOf(e) !in entryByKey {
      newOrder := order + [KeyOf(e)];
    }
    newEntries := entryByKey[KeyOf(e) := e];
  }

  // ---------------------------------------------------------------- payload after payload

  /** What the wire may carry in one place of a payload. */
  datatype Raw = NotADictionary | UnknownType | Malformed | Wellformed(entry: Entry)

  function Accepted(raw: seq<Raw>): seq<Entry> {
    if raw == [] then []
    else Accepted(raw[..|raw| - 1]) + if raw[|raw| - 1].Wellformed? then [raw[|raw| - 1].entry] else []
  }

  /** Exactly the well-formed entries are accepted, in the order in which they come. */
  lemma {:induction false} AcceptedAre(a: seq<Raw>, r: Raw)
    ensures Accepted([]) == []
    ensures Accepted(a + [r]) == match r
                                 case Wellformed(entry) => Accepted(a) + [entry]
                                 case _ => Accepted(a)
  {
    assert (a + [r])[..|a|] == a;
  }

  method Parse(raw: Option<seq<Raw>>) returns (parsed: Option<seq<Entry>>)
    ensures parsed == if raw.None? then None else Some(Merged([], Accepted(raw.value)))
  {
    if raw.None? {
      return None;
    }
    var entries: seq<Entry> := [];
    for i := 0 to |raw.value|
      invariant entries == Accepted(raw.value[..i])
    {
      assert raw.value[..i + 1][..i] == raw.value[..i];
      if raw.value[i].Wellformed? {
        entries := entries + [raw.value[i].entry];
      }
    }
    assert raw.value[..|raw.value|] == raw.value;
    var merged := Merge([], entries);
    return Some(merged);
  }

  function AllAccepted(payloads: seq<Option<seq<Raw>>>): seq<Entry> {
    if payloads == [] then []
    else
      var last := payloads[|payloads| - 1];
      AllAccepted(payloads[..|payloads| - 1]) + if last.Some? then Accepted(last.value) else []
  }

  /** Payload after payload in the order of their arrival; an absent one brings nothing. */
  lemma {:induction false} AllAcceptedAre(payloads: seq<Option<seq<Raw>>>, next: Option<seq<Raw>>)
    ensures AllAccepted([]) == []
    ensures AllAccepted(payloads + [next]) == match next
                                              case None => AllAccepted(payloads)
                                              case Some(raw) => AllAccepted(payloads) + Accepted(raw)
  {
    assert (payloads + [next])[..|payloads|] == payloads;
  }

  lemma {:induction false} AbsorbingConcat(tree: seq<Entry>, a: seq<Entry>, b: seq<Entry>)
    ensures Absorbing(tree, a + b) == Absorbing(Absorbing(tree, a), b)
  {
    if b == [] {
      assert a + b == a;
    } else {
      assert (a + b)[..|a + b| - 1] == a + b[..|b| - 1];
      AbsorbingConcat(tree, a, b[..|b| - 1]);
    }
  }

  lemma {:induction false} PayloadAbsorbed(tree: seq<Entry>, earlier: seq<Entry>, accepted: seq<Entry>)
    requires tree == Merged([], earlier) && IsTree(tree)
    ensures Merged([], earlier + accepted) == Merged(tree, Merged([], accepted))
    ensures IsTree(Merged([], earlier + accepted))
    ensures Merged([], accepted) == [] ==> accepted == []
  {
    PremergingIsInvisible(tree, accepted);
    FromTree(tree);
    AbsorbingConcat([], earlier, accepted);
    AccumulatedIsTree(tree, accepted);
  }

  /** Parsing every payload and merging it when it arrives shows the same tree as absorbing every entry that was
      ever accepted, one by one: how the stream was cut into payloads cannot be told from the result. */
  method Accumulate(payloads: seq<Option<seq<Raw>>>) returns (tree: seq<Entry>)
    ensures tree == Merged([], AllAccepted(payloads)) && IsTree(tree)
  {
    tree := [];
    for i := 0 to |payloads|
      invariant tree == Merged([], AllAccepted(payloads[..i])) && IsTree(tree)
    {
      assert payloads[..i + 1][..i] == payloads[..i];
      var parsed := Parse(payloads[i]);
      assert AllAccepted(payloads[..i]) + [] == AllAccepted(payloads[..i]);
      if payloads[i].Some? {
        PayloadAbsorbed(tree, AllAccepted(payloads[..i]), Accepted(payloads[i].value));
      }
      if parsed.Some? && parsed.value != [] {
        tree := Merge(tree, parsed.value);
      }
    }
    assert payloads[..|payloads|] == payloads;
  }
}
