/** The directory of one managed tool: version slots, temporary directories, and what resolution, retention and
    installation do to them. */
module VersionSlots {

  datatype Option<+T> = None | Some(value: T)

  /** An installed version.  `text` is the part of the directory name after its prefix, `rank` the place of
      that version in PEP 440's order (two texts may rank alike), `pinned` the checksum it was verified
      against, `content` what was downloaded. */
  datatype Slot = Slot(text: string, rank: int, hasBinary: bool, pinned: nat, content: nat, probed: bool)

  datatype Entry = Version(slot: Slot) | Temp(id: nat) | Other(name: string)

  /** The version slots in listing order. */
  function Slots(entries: seq<Entry>): seq<Slot> {
    if entries == [] then []
    else (if entries[0].Version? then [entries[0].slot] else []) + Slots(entries[1..])
  }

  function Binaries(slots: seq<Slot>): seq<Slot> {
    if slots == [] then []
    else (if slots[0].hasBinary then [slots[0]] else []) + Binaries(slots[1..])
  }

  /** No two directories share a name. */
  predicate Distinct(slots: seq<Slot>) {
    forall i, j :: 0 <= i < j < |slots| ==> slots[i].text != slots[j].text
  }

  // ---------------------------------------------------------------- newest first, ties in listing order

  function InsertNewestFirst(x: Slot, sorted: seq<Slot>): (r: seq<Slot>)
    ensures |r| == |sorted| + 1
  {
    if sorted == [] || x.rank >= sorted[0].rank then [x] + sorted
    else [sorted[0]] + InsertNewestFirst(x, sorted[1..])
  }

  function NewestFirst(slots: seq<Slot>): (r: seq<Slot>)
    ensures |r| == |slots|
  {
    if slots == [] then [] else InsertNewestFirst(slots[0], NewestFirst(slots[1..]))
  }

  predicate Descending(slots: seq<Slot>) {
    forall i, j :: 0 <= i < j < |slots| ==> slots[i].rank >= slots[j].rank
  }

  lemma {:induction false} InsertAdds(x: Slot, sorted: seq<Slot>)
    ensures multiset(InsertNewestFirst(x, sorted)) == multiset{x} + multiset(sorted)
  {
    if sorted != [] {
      assert sorted == [sorted[0]] + sorted[1..];
      InsertAdds(x, sorted[1..]);
    }
  }

  lemma {:induction false} DescendingCons(first: Slot, rest: seq<Slot>)
    requires Descending(rest) && (rest != [] ==> first.rank >= rest[0].rank)
    ensures Descending([first] + rest)
  {
  }

  lemma {:induction false} InsertKeepsDescending(x: Slot, sorted: seq<Slot>)
    requires Descending(sorted)
    ensures Descending(InsertNewestFirst(x, sorted))
  {
    if sorted == [] || x.rank >= sorted[0].rank {
      DescendingCons(x, sorted);
    } else {
      InsertKeepsDescending(x, sorted[1..]);
      DescendingCons(sorted[0], InsertNewestFirst(x, sorted[1..]));
    }
  }

  lemma {:induction false} NewestFirstSorts(slots: seq<Slot>)
    ensures Descending(NewestFirst(slots))
    ensures multiset(NewestFirst(slots)) == multiset(slots)
  {
    if slots != [] {
      NewestFirstSorts(slots[1..]);
      InsertKeepsDescending(slots[0], NewestFirst(slots[1..]));
      InsertAdds(slots[0], NewestFirst(slots[1..]));
      assert slots == [slots[0]] + slots[1..];
    }
  }

  /** `slots[j]` comes before `slots[i]` when newest goes first. */
  predicate Outranks(slots: seq<Slot>, j: nat, i: nat)
    requires i < |slots| && j < |slots|
  {
    slots[j].rank > slots[i].rank || (slots[j].rank == slots[i].rank && j < i)
  }

  /** How many of the first `n` slots come before `slots[i]`. */
  function Outranking(slots: seq<Slot>, i: nat, n: nat): nat
    requires i < |slots| && n <= |slots|
  {
    if n == 0 then 0
    else Outranking(slots, i, n - 1) + (if Outranks(slots, n - 1, i) then 1 else 0)
  }

  lemma {:induction false} OutrankingTail(slots: seq<Slot>, i: nat, n: nat)
    requires 1 <= i < |slots| && 1 <= n <= |slots|
    ensures Outranking(slots, i, n)
         == Outranking(slots[1..], i - 1, n - 1) + (if slots[0].rank >= slots[i].rank then 1 else 0)
  {
    if n > 1 {
      OutrankingTail(slots, i, n - 1);
    }
  }

  /** Number of slots newer than `rank`. */
  function Newer(slots: seq<Slot>, rank: int): nat {
    if slots == [] then 0
    else (if slots[|slots| - 1].rank > rank then 1 else 0) + Newer(slots[..|slots| - 1], rank)
  }

  lemma {:induction false} HeadOutranking(slots: seq<Slot>, n: nat)
    requires 1 <= n <= |slots|
    ensures Outranking(slots, 0, n) == Newer(slots[1..n], slots[0].rank)
  {
    if n > 1 {
      HeadOutranking(slots, n - 1);
      assert slots[1..n][..n - 2] == slots[1..n - 1];
    }
  }

  lemma {:induction false} InsertPlaces(x: Slot, sorted: seq<Slot>, c: nat)
    requires Descending(sorted)
    ensures c < |sorted| ==>
      InsertNewestFirst(x, sorted)[if sorted[c].rank > x.rank then c else c + 1] == sorted[c]
    ensures Lead(sorted, x.rank) <= |sorted| && InsertNewestFirst(x, sorted)[Lead(sorted, x.rank)] == x
  {
    if sorted != [] && x.rank < sorted[0].rank {
      InsertPlaces(x, sorted[1..], if c == 0 then 0 else c - 1);
    }
  }

  /** Length of the leading run of slots newer than `rank`. */
  function Lead(sorted: seq<Slot>, rank: int): nat {
    if sorted == [] || sorted[0].rank <= rank then 0 else 1 + Lead(sorted[1..], rank)
  }

  lemma {:induction false} NewerConcat(a: seq<Slot>, b: seq<Slot>, rank: int)
    ensures Newer(a + b, rank) == Newer(a, rank) + Newer(b, rank)
  {
    if b == [] {
      assert a + b == a;
    } else {
      assert (a + b)[..|a + b| - 1] == a + b[..|b| - 1];
      NewerConcat(a, b[..|b| - 1], rank);
    }
  }

  lemma {:induction false} LeadIsNewer(sorted: seq<Slot>, rank: int)
    requires Descending(sorted)
    ensures Lead(sorted, rank) == Newer(sorted, rank)
  {
    if sorted != [] {
      LeadIsNewer(sorted[1..], rank);
      NewerConcat([sorted[0]], sorted[1..], rank);
      assert [sorted[0]] + sorted[1..] == sorted;
      assert Newer([sorted[0]], rank) == (if sorted[0].rank > rank then 1 else 0);
      if sorted[0].rank <= rank && sorted[1..] != [] {
        assert sorted[1].rank <= rank;
      }
    }
  }

  lemma {:induction false} InsertCounts(x: Slot, sorted: seq<Slot>, rank: int)
    ensures Newer(InsertNewestFirst(x, sorted), rank) == Newer([x] + sorted, rank)
  {
    if sorted != [] && x.rank < sorted[0].rank {
      InsertCounts(x, sorted[1..], rank);
      NewerConcat([sorted[0]], InsertNewestFirst(x, sorted[1..]), rank);
      NewerConcat([x], sorted[1..], rank);
      NewerConcat([x], sorted, rank);
      NewerConcat([sorted[0]], sorted[1..], rank);
      assert [sorted[0]] + sorted[1..] == sorted;
    }
  }

  lemma {:induction false} SortingCounts(slots: seq<Slot>, rank: int)
    ensures Newer(NewestFirst(slots), rank) == Newer(slots, rank)
  {
    if slots != [] {
      SortingCounts(slots[1..], rank);
      InsertCounts(slots[0], NewestFirst(slots[1..]), rank);
      NewerConcat([slots[0]], NewestFirst(slots[1..]), rank);
      NewerConcat([slots[0]], slots[1..], rank);
      assert [slots[0]] + slots[1..] == slots;
    }
  }

  lemma {:induction false} PlaceOfFirst(slots: seq<Slot>)
    requires slots != []
    ensures Outranking(slots, 0, |slots|) < |slots|
    ensures NewestFirst(slots)[Outranking(slots, 0, |slots|)] == slots[0]
  {
    var rest := slots[1..];
    NewestFirstSorts(rest);
    HeadOutranking(slots, |slots|);
    assert slots[1..|slots|] == rest;
    SortingCounts(rest, slots[0].rank);
    LeadIsNewer(NewestFirst(rest), slots[0].rank);
    InsertPlaces(slots[0], NewestFirst(rest), 0);
  }

  /** The place of a slot in the sorted list is the number of slots that outrank it. */
  lemma {:induction false} PlaceIsOutranking(slots: seq<Slot>, i: nat)
    requires i < |slots|
    ensures Outranking(slots, i, |slots|) < |slots|
    ensures NewestFirst(slots)[Outranking(slots, i, |slots|)] == slots[i]
  {
    var rest := slots[1..];
    if i == 0 {
      PlaceOfFirst(slots);
    } else {
      NewestFirstSorts(rest);
      PlaceIsOutranking(rest, i - 1);
      OutrankingTail(slots, i, |slots|);
      InsertPlaces(slots[0], NewestFirst(rest), Outranking(rest, i - 1, |rest|));
    }
  }

  // ---------------------------------------------------------------- resolution and retention

  predicate HasBinary(slots: seq<Slot>, text: string) {
    exists s <- slots :: s.text == text && s.hasBinary
  }

  /** The version that resolves: the recommended one if its binary is there, else the newest with a binary. */
  function Resolved(slots: seq<Slot>, recommended: string): Option<string> {
    if HasBinary(slots, recommended) then Some(recommended)
    else if Binaries(slots) == [] then None
    else Some(NewestFirst(Binaries(slots))[0].text)
  }

  function Without(entries: seq<Entry>, text: string): seq<Entry> {
    if entries == [] then []
    else
      (if entries[0].Version? && entries[0].slot.text == text then [] else [entries[0]])
      + Without(entries[1..], text)
  }

  function WithoutTemps(entries: seq<Entry>): seq<Entry> {
    if entries == [] then []
    else (if entries[0].Temp? then [] else [entries[0]]) + WithoutTemps(entries[1..])
  }

  function WithoutTemp(entries: seq<Entry>, id: nat): seq<Entry> {
    if entries == [] then []
    else (if entries[0] == Temp(id) then [] else [entries[0]]) + WithoutTemp(entries[1..], id)
  }

  /** Deletes the listed versions, except the active one. */
  function Pruned(entries: seq<Entry>, doomed: seq<Slot>, active: Option<string>): seq<Entry>
    decreases |doomed|
  {
    if doomed == [] then entries
    else Pruned(if active == Some(doomed[0].text) then entries else Without(entries, doomed[0].text),
                doomed[1..], active)
  }

  function CleanedUp(entries: seq<Entry>, keep: nat, active: Option<string>): seq<Entry> {
    var rest := WithoutTemps(entries);
    var sorted := NewestFirst(Slots(rest));
    if |sorted| <= keep then rest else Pruned(rest, sorted[keep..], active)
  }

  /** What is in a listing, and what removing a version or the temporary directories leaves in it. */
  lemma {:induction false} EntriesAre(entries: seq<Entry>, text: string)
    ensures forall s :: s in Slots(entries) <==> Version(s) in entries
    ensures forall e :: e in WithoutTemps(entries) <==> e in entries && !e.Temp?
    ensures forall e :: e in Without(entries, text) <==> e in entries && !(e.Version? && e.slot.text == text)
  {
    if entries != [] {
      EntriesAre(entries[1..], text);
      assert forall e :: e in entries <==> e == entries[0] || e in entries[1..];
    }
  }

  lemma {:induction false} WithoutTempsKeepsSlots(entries: seq<Entry>)
    ensures Slots(WithoutTemps(entries)) == Slots(entries)
    ensures forall e <- WithoutTemps(entries) :: e in entries && !e.Temp?
  {
    if entries != [] {
      WithoutTempsKeepsSlots(entries[1..]);
      SlotsConcat(if entries[0].Temp? then [] else [entries[0]], WithoutTemps(entries[1..]));
    }
  }

  lemma {:induction false} WithoutTempKeepsSlots(entries: seq<Entry>, id: nat)
    ensures Slots(WithoutTemp(entries, id)) == Slots(entries)
    ensures forall e :: e in WithoutTemp(entries, id) <==> e in entries && e != Temp(id)
  {
    if entries != [] {
      WithoutTempKeepsSlots(entries[1..], id);
      SlotsConcat(if entries[0] == Temp(id) then [] else [entries[0]], WithoutTemp(entries[1..], id));
      assert forall e :: e in entries <==> e == entries[0] || e in entries[1..];
    }
  }

  lemma {:induction false} SlotsConcat(a: seq<Entry>, b: seq<Entry>)
    ensures Slots(a + b) == Slots(a) + Slots(b)
  {
    if a == [] {
      assert a + b == b;
    } else {
      assert (a + b)[0] == a[0] && (a + b)[1..] == a[1..] + b;
      SlotsConcat(a[1..], b);
      var head, kept, more := if a[0].Version? then [a[0].slot] else [], Slots(a[1..]), Slots(b);
      assert head + (kept + more) == head + kept + more;
    }
  }

  /** The slots that are left when some texts are removed, in the same order. */
  function Surviving(slots: seq<Slot>, gone: set<string>): seq<Slot> {
    if slots == [] then []
    else (if slots[0].text in gone then [] else [slots[0]]) + Surviving(slots[1..], gone)
  }

  lemma {:induction false} WithoutSurvives(entries: seq<Entry>, text: string)
    ensures Slots(Without(entries, text)) == Surviving(Slots(entries), {text})
  {
    if entries != [] {
      WithoutSurvives(entries[1..], text);
      var head := if entries[0].Version? && entries[0].slot.text == text then [] else [entries[0]];
      SlotsConcat(head, Without(entries[1..], text));
      var headSlots := if entries[0].Version? then [entries[0].slot] else [];
      SurvivingConcat(headSlots, Slots(entries[1..]), {text});
    }
  }

  lemma {:induction false} SurvivingConcat(a: seq<Slot>, b: seq<Slot>, gone: set<string>)
    ensures Surviving(a + b, gone) == Surviving(a, gone) + Surviving(b, gone)
  {
    if a == [] {
      assert a + b == b;
    } else {
      assert (a + b)[0] == a[0] && (a + b)[1..] == a[1..] + b;
      SurvivingConcat(a[1..], b, gone);
      var head, kept, more := if a[0].text in gone then [] else [a[0]], Surviving(a[1..], gone), Surviving(b, gone);
      assert head + (kept + more) == head + kept + more;
    }
  }

  lemma {:induction false} SurvivingTwice(slots: seq<Slot>, a: set<string>, b: set<string>)
    ensures Surviving(Surviving(slots, a), b) == Surviving(slots, a + b)
  {
    if slots != [] {
      SurvivingTwice(slots[1..], a, b);
      SurvivingConcat(if slots[0].text in a then [] else [slots[0]], Surviving(slots[1..], a), b);
    }
  }

  lemma {:induction false} NoneGone(slots: seq<Slot>)
    ensures Surviving(slots, {}) == slots
  {
    if slots != [] {
      NoneGone(slots[1..]);
    }
  }

  lemma {:induction false} SurvivorsAre(slots: seq<Slot>, gone: set<string>)
    ensures forall s :: s in Surviving(slots, gone) <==> s in slots && s.text !in gone
  {
    if slots != [] {
      SurvivorsAre(slots[1..], gone);
      assert forall s :: s in slots <==> s == slots[0] || s in slots[1..];
    }
  }

  function Texts(slots: seq<Slot>): set<string> {
    set s <- slots :: s.text
  }

  function Gone(doomed: seq<Slot>, active: Option<string>): set<string> {
    Texts(doomed) - (if active.Some? then {active.value} else {})
  }

  lemma {:induction false} PrunedSurvives(entries: seq<Entry>, doomed: seq<Slot>, active: Option<string>)
    ensures Slots(Pruned(entries, doomed, active)) == Surviving(Slots(entries), Gone(doomed, active))
    decreases |doomed|
  {
    if doomed == [] {
      assert Gone(doomed, active) == {};
      NoneGone(Slots(entries));
    } else {
      var text := doomed[0].text;
      assert forall s :: s in doomed <==> s == doomed[0] || s in doomed[1..];
      if active == Some(text) {
        PrunedSurvives(entries, doomed[1..], active);
        assert Gone(doomed, active) == Gone(doomed[1..], active);
      } else {
        PrunedSurvives(Without(entries, text), doomed[1..], active);
        WithoutSurvives(entries, text);
        SurvivingTwice(Slots(entries), {text}, Gone(doomed[1..], active));
        assert Gone(doomed, active) == {text} + Gone(doomed[1..], active);
      }
    }
  }

  /** The versions cleanup looks at: those outside the newest `keep`. */
  function Doomed(slots: seq<Slot>, keep: nat): seq<Slot> {
    if |slots| <= keep then [] else NewestFirst(slots)[keep..]
  }

  /** What cleanup leaves: the versions outside the newest `keep` are gone, save the active one. */
  lemma {:induction false} CleanedUpSurvives(entries: seq<Entry>, keep: nat, active: Option<string>)
    ensures Slots(CleanedUp(entries, keep, active))
         == Surviving(Slots(entries), Gone(Doomed(Slots(entries), keep), active))
  {
    WithoutTempsKeepsSlots(entries);
    if |Slots(entries)| <= keep {
      assert Gone([], active) == {};
      NoneGone(Slots(entries));
    } else {
      PrunedSurvives(WithoutTemps(entries), Doomed(Slots(entries), keep), active);
    }
  }

  lemma {:induction false} DoomedExactlyWhen(slots: seq<Slot>, keep: nat, i: nat)
    requires Distinct(slots) && i < |slots|
    ensures slots[i].text in Texts(Doomed(slots, keep)) <==> Outranking(slots, i, |slots|) >= keep
  {
    var doomed := Doomed(slots, keep);
    var place := Outranking(slots, i, |slots|);
    PlaceIsOutranking(slots, i);
    if place >= keep {
      assert doomed[place - keep] == slots[i];
    } else {
      forall k | 0 <= k < |doomed|
        ensures doomed[k].text != slots[i].text
      {
        SortedIsDistinct(slots, place, keep + k);
      }
    }
  }

  /** Retention: a version survives cleanup if and only if fewer than `keep` versions come before it, or it is
      the active one. */
  lemma {:induction false} SurvivesExactlyWhen(entries: seq<Entry>, keep: nat, active: Option<string>, i: nat)
    requires Distinct(Slots(entries)) && i < |Slots(entries)|
    ensures Slots(entries)[i] in Slots(CleanedUp(entries, keep, active)) <==>
      Outranking(Slots(entries), i, |Slots(entries)|) < keep || active == Some(Slots(entries)[i].text)
  {
    var slots := Slots(entries);
    CleanedUpSurvives(entries, keep, active);
    DoomedExactlyWhen(slots, keep, i);
    SurvivorAt(slots, Gone(Doomed(slots, keep), active), i);
  }

  lemma {:induction false} SurvivorAt(slots: seq<Slot>, gone: set<string>, i: nat)
    requires i < |slots|
    ensures slots[i] in Surviving(slots, gone) <==> slots[i].text !in gone
  {
    SurvivorsAre(slots, gone);
  }

  lemma {:induction false} SortedIsDistinct(slots: seq<Slot>, j: nat, k: nat)
    requires Distinct(slots) && j < k < |slots|
    ensures NewestFirst(slots)[j].text != NewestFirst(slots)[k].text
  {
    var sorted := NewestFirst(slots);
    NewestFirstSorts(slots);
    if sorted[j].text == sorted[k].text {
      assert sorted[j] in multiset(sorted) && sorted[k] in multiset(sorted);
      var a :| 0 <= a < |slots| && slots[a] == sorted[j];
      var b :| 0 <= b < |slots| && slots[b] == sorted[k];
      assert a == b;
      assert sorted == sorted[..k] + sorted[k..];
      assert multiset(sorted)[sorted[j]] >= 2 by {
        assert sorted[..k][j] == sorted[j] && sorted[k..][0] == sorted[j];
        assert multiset(sorted) == multiset(sorted[..k]) + multiset(sorted[k..]);
      }
      OnceIn(slots, a);
    }
  }

  lemma {:induction false} OnceIn(slots: seq<Slot>, a: nat)
    requires Distinct(slots) && a < |slots|
    ensures multiset(slots)[slots[a]] == 1
  {
    assert slots == [slots[0]] + slots[1..];
    if a == 0 {
      assert slots[0] !in slots[1..];
    } else {
      OnceIn(slots[1..], a - 1);
    }
  }

  // ---------------------------------------------------------------- what cleanup does to resolution

  lemma {:induction false} BinariesAre(slots: seq<Slot>)
    ensures forall s :: s in Binaries(slots) <==> s in slots && s.hasBinary
  {
    if slots != [] {
      BinariesAre(slots[1..]);
      assert forall s :: s in slots <==> s == slots[0] || s in slots[1..];
    }
  }

  lemma {:induction false} NoBinaries(slots: seq<Slot>)
    ensures Binaries(slots) == [] <==> forall s <- slots :: !s.hasBinary
  {
    BinariesAre(slots);
    if Binaries(slots) != [] {
      assert Binaries(slots)[0] in slots;
    }
  }

  lemma {:induction false} BinariesOfSurvivors(slots: seq<Slot>, gone: set<string>)
    ensures Binaries(Surviving(slots, gone)) == Surviving(Binaries(slots), gone)
  {
    if slots != [] {
      BinariesOfSurvivors(slots[1..], gone);
      var kept := Surviving(slots[1..], gone);
      assert Surviving(slots, gone) == if slots[0].text in gone then kept else [slots[0]] + kept;
      assert ([slots[0]] + kept)[1..] == kept;
      var rest := Binaries(slots[1..]);
      assert Binaries(slots) == if slots[0].hasBinary then [slots[0]] + rest else rest;
      assert ([slots[0]] + rest)[1..] == rest;
    }
  }

  /** The newest of the slots stays in front when others are deleted. */
  lemma {:induction false} NewestSurvives(slots: seq<Slot>, gone: set<string>)
    requires slots != [] && NewestFirst(slots)[0].text !in gone
    ensures Surviving(slots, gone) != []
    ensures NewestFirst(Surviving(slots, gone))[0] == NewestFirst(slots)[0]
  {
    var rest := slots[1..];
    var kept := Surviving(rest, gone);
    assert ([slots[0]] + kept)[1..] == kept;
    if rest != [] {
      if slots[0].rank >= NewestFirst(rest)[0].rank {
        NoneNewerSurvives(rest, gone, slots[0].rank);
      } else {
        NewestSurvives(rest, gone);
        assert Surviving(slots, gone) == if slots[0].text in gone then kept else [slots[0]] + kept;
      }
    }
  }

  lemma {:induction false} NoneNewerSurvives(slots: seq<Slot>, gone: set<string>, rank: int)
    requires slots != [] && rank >= NewestFirst(slots)[0].rank
    ensures Surviving(slots, gone) != [] ==> rank >= NewestFirst(Surviving(slots, gone))[0].rank
  {
    var left := Surviving(slots, gone);
    if left != [] {
      NewestFirstSorts(slots);
      NewestFirstSorts(left);
      SurvivorsAre(slots, gone);
      var s := NewestFirst(left)[0];
      assert s in multiset(NewestFirst(left));
      assert s in slots;
      assert s in multiset(NewestFirst(slots));
      var k :| 0 <= k < |slots| && NewestFirst(slots)[k] == s;
    }
  }

  lemma {:induction false} ResolutionSurvives(slots: seq<Slot>, gone: set<string>, recommended: string)
    requires Resolved(slots, recommended).Some? ==> Resolved(slots, recommended).value !in gone
    ensures Resolved(Surviving(slots, gone), recommended) == Resolved(slots, recommended)
  {
    SurvivorsAre(slots, gone);
    BinariesOfSurvivors(slots, gone);
    if !HasBinary(slots, recommended) && Binaries(slots) != [] {
      NewestSurvives(Binaries(slots), gone);
    }
  }

  /** In managed mode, where the active version is the one that resolves, cleanup never changes which version
      resolves, whatever is installed and however little is kept. */
  lemma {:induction false} CleanupKeepsResolution(entries: seq<Entry>, keep: nat, recommended: string)
    ensures
      var before := Resolved(Slots(entries), recommended);
      Resolved(Slots(CleanedUp(entries, keep, before)), recommended) == before
  {
    var active := Resolved(Slots(entries), recommended);
    CleanedUpSurvives(entries, keep, active);
    ResolutionSurvives(Slots(entries), Gone(Doomed(Slots(entries), keep), active), recommended);
  }

  /** Some version other than the one that resolves ranks as high: `1.0` and `1.0.0`, for instance. */
  predicate Tied(slots: seq<Slot>, resolved: Option<string>) {
    exists a, b | a in slots && b in slots ::
      a.hasBinary && b.hasBinary && a.rank == b.rank && Some(a.text) == resolved && a.text != b.text
  }

  lemma {:induction false} ResolvedIsNewest(slots: seq<Slot>, recommended: string)
    requires !HasBinary(slots, recommended) && Binaries(slots) != []
    ensures
      var top := NewestFirst(Binaries(slots))[0];
      top in slots && top.hasBinary && forall s <- slots :: s.hasBinary ==> s.rank <= top.rank
  {
    var binaries := Binaries(slots);
    BinariesAre(slots);
    NewestFirstSorts(binaries);
    assert NewestFirst(binaries)[0] in multiset(NewestFirst(binaries));
    forall s | s in slots && s.hasBinary
      ensures s.rank <= NewestFirst(binaries)[0].rank
    {
      assert s in multiset(NewestFirst(binaries));
      var k :| 0 <= k < |binaries| && NewestFirst(binaries)[k] == s;
    }
  }

  /** Which version resolves: the recommended one if its binary is there, else one of the newest with a binary. */
  lemma {:induction false} ResolvedMeans(slots: seq<Slot>, recommended: string)
    ensures (exists s <- slots :: s.text == recommended && s.hasBinary) ==>
      Resolved(slots, recommended) == Some(recommended)
    ensures (forall s <- slots :: !s.hasBinary) <==> Resolved(slots, recommended).None?
    ensures Resolved(slots, recommended).Some? && !(exists s <- slots :: s.text == recommended && s.hasBinary) ==>
      exists top <- slots ::
        && top.hasBinary && Resolved(slots, recommended) == Some(top.text)
        && forall s <- slots :: s.hasBinary ==> s.rank <= top.rank
  {
    BinariesAre(slots);
    if !HasBinary(slots, recommended) && Binaries(slots) != [] {
      ResolvedIsNewest(slots, recommended);
    }
    if Binaries(slots) != [] {
      assert Binaries(slots)[0] in Binaries(slots);
    }
  }

  /** Without a tie, the order in which the directory is listed does not matter. */
  lemma {:induction false} UntiedListsAlike(slots: seq<Slot>, relisted: seq<Slot>, recommended: string)
    requires multiset(relisted) == multiset(slots)
    requires HasBinary(slots, recommended) || !Tied(slots, Resolved(slots, recommended))
    ensures Resolved(relisted, recommended) == Resolved(slots, recommended)
  {
    assert forall s :: s in slots <==> s in multiset(slots);
    assert forall s :: s in relisted <==> s in multiset(relisted);
    BinariesAre(slots);
    BinariesAre(relisted);
    if !HasBinary(slots, recommended) && Binaries(slots) != [] {
      ResolvedIsNewest(slots, recommended);
      assert Binaries(relisted) != [] by {
        assert Binaries(slots)[0] in Binaries(relisted);
      }
      ResolvedIsNewest(relisted, recommended);
    } else if Binaries(slots) == [] {
      NoBinaries(slots);
      NoBinaries(relisted);
    }
  }

  /** With one, listing the tied version first makes it resolve instead. */
  lemma {:induction false} TiedListsOtherwise(slots: seq<Slot>, recommended: string) returns (relisted: seq<Slot>)
    requires !HasBinary(slots, recommended) && Tied(slots, Resolved(slots, recommended)) && Distinct(slots)
    ensures multiset(relisted) == multiset(slots)
    ensures Resolved(relisted, recommended) != Resolved(slots, recommended)
  {
    var a, b :| a in slots && b in slots && a.hasBinary && b.hasBinary && a.rank == b.rank
             && Some(a.text) == Resolved(slots, recommended) && a.text != b.text;
    BinariesAre(slots);
    ResolvedIsNewest(slots, recommended);
    relisted := MovedToFront(slots, b);
    assert a == NewestFirst(Binaries(slots))[0];
    forall s | s in relisted && s.hasBinary
      ensures s.rank <= b.rank && s.text != recommended
    {
      assert s in multiset(relisted);
      assert s in slots;
    }
    FirstOfTheNewestResolves(relisted, recommended);
  }

  lemma {:induction false} MovedToFront(slots: seq<Slot>, s: Slot) returns (moved: seq<Slot>)
    requires s in slots
    ensures multiset(moved) == multiset(slots)
    ensures moved != [] && moved[0] == s
  {
    var i :| 0 <= i < |slots| && slots[i] == s;
    moved := [s] + slots[..i] + slots[i + 1..];
    assert slots == slots[..i] + [s] + slots[i + 1..];
  }

  lemma {:induction false} FirstOfTheNewestResolves(slots: seq<Slot>, recommended: string)
    requires slots != [] && slots[0].hasBinary && !HasBinary(slots, recommended)
    requires forall s <- slots :: s.hasBinary ==> s.rank <= slots[0].rank
    ensures Resolved(slots, recommended) == Some(slots[0].text)
  {
    var rest := Binaries(slots[1..]);
    assert ([slots[0]] + rest)[1..] == rest;
    if rest != [] {
      ResolvedIsNewest(slots[1..], recommended);
    }
  }

  /** When the directory may be listed in another order after cleanup, resolution is certain to be unchanged
      if and only if the recommended binary is there or no surviving version ties with the one that resolves. */
  lemma {:induction false} RelistingKeepsResolutionExactlyWhen(entries: seq<Entry>, keep: nat, recommended: string)
    requires Distinct(Slots(entries))
    ensures
      var before := Resolved(Slots(entries), recommended);
      var after := Slots(CleanedUp(entries, keep, before));
      (forall relisted | multiset(relisted) == multiset(after) :: Resolved(relisted, recommended) == before)
      <==> HasBinary(Slots(entries), recommended) || !Tied(after, before)
  {
    var before := Resolved(Slots(entries), recommended);
    var after := Slots(CleanedUp(entries, keep, before));
    CleanupKeepsResolution(entries, keep, recommended);
    CleanupKeepsDistinct(entries, keep, before);
    RecommendedSurvives(entries, keep, recommended);
    if HasBinary(after, recommended) || !Tied(after, before) {
      forall relisted | multiset(relisted) == multiset(after)
        ensures Resolved(relisted, recommended) == before
      {
        UntiedListsAlike(after, relisted, recommended);
      }
    } else {
      var relisted := TiedListsOtherwise(after, recommended);
    }
  }

  lemma {:induction false} RecommendedSurvives(entries: seq<Entry>, keep: nat, recommended: string)
    ensures
      var after := Slots(CleanedUp(entries, keep, Resolved(Slots(entries), recommended)));
      HasBinary(after, recommended) <==> HasBinary(Slots(entries), recommended)
  {
    var active := Resolved(Slots(entries), recommended);
    CleanedUpSurvives(entries, keep, active);
    SurvivorsAre(Slots(entries), Gone(Doomed(Slots(entries), keep), active));
  }

  lemma {:induction false} SurvivingKeepsDistinct(slots: seq<Slot>, gone: set<string>)
    requires Distinct(slots)
    ensures Distinct(Surviving(slots, gone))
  {
    if slots != [] {
      SurvivingKeepsDistinct(slots[1..], gone);
      SurvivorsAre(slots[1..], gone);
      var rest := Surviving(slots[1..], gone);
      forall k | 0 <= k < |rest|
        ensures rest[k].text != slots[0].text
      {
        assert rest[k] in slots[1..];
      }
    }
  }

  lemma {:induction false} CleanupKeepsDistinct(entries: seq<Entry>, keep: nat, active: Option<string>)
    requires Distinct(Slots(entries))
    ensures Distinct(Slots(CleanedUp(entries, keep, active)))
  {
    CleanedUpSurvives(entries, keep, active);
    SurvivingKeepsDistinct(Slots(entries), Gone(Doomed(Slots(entries), keep), active));
  }

  // ---------------------------------------------------------------- activating a staged version

  /** The slot's directory replaced by the staged tree. */
  function Activated(entries: seq<Entry>, slot: Slot): seq<Entry> {
    Without(entries, slot.text) + [Version(slot)]
  }

  lemma {:induction false} ActivatedSlots(entries: seq<Entry>, slot: Slot)
    ensures Slots(Activated(entries, slot)) == Surviving(Slots(entries), {slot.text}) + [slot]
  {
    WithoutSurvives(entries, slot.text);
    SlotsConcat(Without(entries, slot.text), [Version(slot)]);
    assert Slots([Version(slot)]) == [slot];
  }

  lemma {:induction false} ActivationKeepsDistinct(entries: seq<Entry>, slot: Slot)
    requires Distinct(Slots(entries))
    ensures Distinct(Slots(Activated(entries, slot)))
  {
    ActivatedSlots(entries, slot);
    SurvivingKeepsDistinct(Slots(entries), {slot.text});
    SurvivorsAre(Slots(entries), {slot.text});
    var left := Surviving(Slots(entries), {slot.text});
    forall k | 0 <= k < |left|
      ensures left[k].text != slot.text
    {
      assert left[k] in left;
    }
  }

  /** Once the recommended version has been put in place with its binary where it is looked for, it resolves,
      also after the cleanup that follows, even when nothing is to be kept. */
  lemma {:induction false} InstalledVersionResolves(entries: seq<Entry>, slot: Slot, keep: nat)
    requires slot.hasBinary
    ensures
      var installed := Activated(entries, slot);
      var resolved := Resolved(Slots(installed), slot.text);
      resolved == Some(slot.text)
      && Resolved(Slots(CleanedUp(installed, keep, resolved)), slot.text) == Some(slot.text)
  {
    ActivatedSlots(entries, slot);
    assert slot in Slots(Activated(entries, slot));
    CleanupKeepsResolution(Activated(entries, slot), keep, slot.text);
  }

  /** A version that is not the recommended one does not come into use by being installed while a newer one
      has its binary. */
  lemma {:induction false} OlderInstallDoesNotResolve(entries: seq<Entry>, slot: Slot, recommended: string, newer: Slot)
    requires newer in Slots(entries) && newer.hasBinary && newer.rank > slot.rank && newer.text != slot.text
    requires recommended != slot.text
    ensures Resolved(Slots(Activated(entries, slot)), recommended) != Some(slot.text)
  {
    ActivatedSlots(entries, slot);
    SurvivorsAre(Slots(entries), {slot.text});
    var slots := Slots(Activated(entries, slot));
    assert newer in slots;
    BinariesAre(slots);
    if !HasBinary(slots, recommended) {
      ResolvedIsNewest(slots, recommended);
    }
  }
}
