/** The falling-letter title as an event-driven state machine.

    Each letter of the title rests as a static body. Hovering a letter makes
    it fall: it is recorded in `fallen` and, on the next sync, its static body
    is replaced by a dynamic one. A wheel or touch-move gesture marks every
    fallen letter as returning, drops their dynamic bodies and arms a 700 ms
    reset timer; when the timer fires both lists are emptied. The physics
    engine itself is not modelled: a body is a position in one of two maps,
    the static one or the dynamic one, keyed by letter index. */
module LetterScene {
  import opened Common
  import LetterLayout

  /** A letter that has been hovered, with the rest position it fell from. */
  datatype Fallen = Fallen(index: int, at: Point)

  /** The bodies in the world, by letter index. */
  datatype Registry = Registry(statics: map<int, Point>, dynamics: map<int, Point>)

  /** `resetAt` is the deadline of the pending reset timer, if one is armed. */
  datatype Scene = Scene(
    positions: seq<Point>,
    fallen: seq<Fallen>,
    returning: seq<int>,
    bodies: Registry,
    resetAt: Option<int>)

  datatype Event =
    | Hover(index: int)
    | Wheel(now: int)
    | TimerCheck(now: int)
    | Resize(viewport: Viewport)

  /** Delay between the last reset gesture and the end of the fly-back. */
  const ResetDelay: int := 700

  function Indexes(fs: seq<Fallen>): (r: seq<int>)
    ensures |r| == |fs|
    ensures forall k :: 0 <= k < |fs| ==> r[k] == fs[k].index
  {
    if |fs| == 0 then [] else [fs[0].index] + Indexes(fs[1..])
  }

  predicate NoDup(xs: seq<int>) {
    forall j, k :: 0 <= j < k < |xs| ==> xs[j] != xs[k]
  }

  // ---------------------------------------------------------------------
  // Mount

  /** The scene right after mount: every letter at rest, each with a static
      body at its rest position, and nothing fallen. */
  function Init(count: nat, vp: Viewport): (s: Scene)
    ensures s.positions == LetterLayout.LetterPositions(count, Some(vp)) && |s.positions| == count
    ensures s.fallen == [] && s.returning == [] && s.resetAt.None?
    ensures forall i :: i in s.bodies.statics <==> 0 <= i < count
    ensures forall i :: 0 <= i < count ==> s.bodies.statics[i] == s.positions[i]
    ensures s.bodies.dynamics == map[]
  {
    var ps := LetterLayout.LetterPositions(count, Some(vp));
    Scene(ps, [], [], Registry(map i | 0 <= i < count :: ps[i], map[]), None)
  }

  // ---------------------------------------------------------------------
  // Events

  /** Hovering letter `i` makes it fall when it has a rest position and is
      neither fallen nor returning. Changing the fallen list re-runs the
      wheel effect, whose cleanup cancels a pending reset timer. */
  function OnHover(s: Scene, i: int): (r: Scene)
    // the layout, the returning list and the bodies are never touched here
    ensures r.positions == s.positions && r.returning == s.returning && r.bodies == s.bodies
    // the scene changes exactly when i can fall ...
    ensures r != s <==> i !in Indexes(s.fallen) && 0 <= i < |s.positions| && i !in s.returning
    // ... and then i is appended, remembering where it rested, and the timer is disarmed
    ensures r != s ==>
      && |r.fallen| == |s.fallen| + 1 && r.fallen[..|s.fallen|] == s.fallen
      && r.fallen[|s.fallen|].index == i && r.fallen[|s.fallen|].at == s.positions[i]
      && r.resetAt.None?
    // a letter with a rest position that is not returning is fallen afterwards
    ensures 0 <= i < |s.positions| && i !in s.returning ==> i in Indexes(r.fallen)
  {
    if i !in Indexes(s.fallen) && 0 <= i < |s.positions| && i !in s.returning then
      s.(fallen := s.fallen + [Fallen(i, s.positions[i])], resetAt := None)
    else
      s
  }

  /** A wheel or touch-move gesture: when something has fallen, removes the
      dynamic bodies of all fallen letters, marks exactly those letters as
      returning and (re)arms the reset timer; otherwise does nothing. */
  function OnWheel(s: Scene, now: int): (r: Scene)
    ensures |s.fallen| == 0 ==> r == s
    ensures |s.fallen| > 0 ==>
      && r.returning == Indexes(s.fallen)
      && r.resetAt == Some(now + ResetDelay)
      && r.fallen == s.fallen && r.positions == s.positions
      && r.bodies.statics == s.bodies.statics
      && (forall i :: i in r.bodies.dynamics <==> i in s.bodies.dynamics && i !in Indexes(s.fallen))
      && (forall i :: i in r.bodies.dynamics ==> r.bodies.dynamics[i] == s.bodies.dynamics[i])
  {
    if |s.fallen| > 0 then
      var gone := Indexes(s.fallen);
      s.(bodies := s.bodies.(dynamics := map i | i in s.bodies.dynamics && i !in gone :: s.bodies.dynamics[i]),
         returning := gone,
         resetAt := Some(now + ResetDelay))
    else
      s
  }

  /** The reset timer: once its deadline has passed it empties both lists. */
  function OnTimer(s: Scene, now: int): (r: Scene)
    ensures r.positions == s.positions && r.bodies == s.bodies
    // the timer fires at its deadline or later, never before, and not when disarmed
    ensures r != s ==> s.resetAt.Some? && now >= s.resetAt.value
    ensures s.resetAt.Some? && now >= s.resetAt.value ==>
      r.fallen == [] && r.returning == [] && r.resetAt.None?
  {
    if s.resetAt.Some? && now >= s.resetAt.value then
      s.(fallen := [], returning := [], resetAt := None)
    else
      s
  }

  /** A window resize recomputes the rest positions; bodies are not moved. */
  function OnResize(s: Scene, vp: Viewport): (r: Scene)
    ensures r.positions == LetterLayout.LetterPositions(|s.positions|, Some(vp))
    ensures |r.positions| == |s.positions|
    ensures r == s.(positions := r.positions)
  {
    s.(positions := LetterLayout.LetterPositions(|s.positions|, Some(vp)))
  }

  function Apply(s: Scene, e: Event): Scene {
    match e
    case Hover(i) => OnHover(s, i)
    case Wheel(now) => OnWheel(s, now)
    case TimerCheck(now) => OnTimer(s, now)
    case Resize(vp) => OnResize(s, vp)
  }

  // ---------------------------------------------------------------------
  // Body sync

  /** One fallen entry: drop its static body; give it a dynamic body at the
      position it fell from unless it is returning or already has one. */
  function VisitFallen(f: Fallen, returning: seq<int>, reg: Registry): Registry {
    var statics := reg.statics - {f.index};
    if f.index !in returning && f.index !in reg.dynamics then
      Registry(statics, reg.dynamics[f.index := f.at])
    else
      Registry(statics, reg.dynamics)
  }

  function SyncFallen(fs: seq<Fallen>, returning: seq<int>, reg: Registry): (r: Registry)
    ensures forall i :: i in r.statics <==> i in reg.statics && i !in Indexes(fs)
    ensures forall i :: i in r.statics ==> r.statics[i] == reg.statics[i]
    ensures forall i :: i in r.dynamics <==> i in reg.dynamics || (i in Indexes(fs) && i !in returning)
    ensures forall i :: i in reg.dynamics ==> r.dynamics[i] == reg.dynamics[i]
    // a new dynamic body starts where its letter fell from
    ensures NoDup(Indexes(fs)) ==>
      forall k :: 0 <= k < |fs| && fs[k].index !in reg.dynamics && fs[k].index !in returning ==>
        r.dynamics[fs[k].index] == fs[k].at
    decreases |fs|
  {
    if |fs| == 0 then reg
    else
      var r := SyncFallen(fs[1..], returning, VisitFallen(fs[0], returning, reg));
      assert Indexes(fs) == [fs[0].index] + Indexes(fs[1..]);
      assert NoDup(Indexes(fs)) ==> NoDup(Indexes(fs[1..])) by {
        if NoDup(Indexes(fs)) {
          forall j, k | 0 <= j < k < |fs[1..]| ensures Indexes(fs[1..])[j] != Indexes(fs[1..])[k] {
            assert Indexes(fs[1..])[j] == Indexes(fs)[j + 1];
            assert Indexes(fs[1..])[k] == Indexes(fs)[k + 1];
          }
        }
      }
      assert NoDup(Indexes(fs)) ==>
        forall k :: 0 < k < |fs| ==> fs[k].index != fs[0].index && fs[k] == fs[1..][k - 1] by {
        if NoDup(Indexes(fs)) {
          forall k | 0 < k < |fs| ensures fs[k].index != fs[0].index {
            assert Indexes(fs)[0] != Indexes(fs)[k];
          }
        }
      }
      r
  }

  /** One returning index: drop its dynamic body and put a static body back
      at its CURRENT rest position, when it has one. */
  function VisitReturning(i: int, positions: seq<Point>, reg: Registry): Registry {
    var dynamics := reg.dynamics - {i};
    if 0 <= i < |positions| then
      Registry(reg.statics[i := positions[i]], dynamics)
    else
      Registry(reg.statics, dynamics)
  }

  function SyncReturning(rs: seq<int>, positions: seq<Point>, reg: Registry): (r: Registry)
    ensures forall i :: i in r.dynamics <==> i in reg.dynamics && i !in rs
    ensures forall i :: i in r.dynamics ==> r.dynamics[i] == reg.dynamics[i]
    ensures forall i :: i in r.statics <==> i in reg.statics || (i in rs && 0 <= i < |positions|)
    ensures forall i :: i in rs && 0 <= i < |positions| ==> r.statics[i] == positions[i]
    ensures forall i :: i in r.statics && i !in rs ==> r.statics[i] == reg.statics[i]
    decreases |rs|
  {
    if |rs| == 0 then reg
    else
      assert forall i :: i in rs <==> i == rs[0] || i in rs[1..];
      SyncReturning(rs[1..], positions, VisitReturning(rs[0], positions, reg))
  }

  /** The body-sync effect: fallen letters first, then returning ones. */
  function Sync(s: Scene): (r: Scene)
    ensures r == s.(bodies := r.bodies)
    // a fallen letter that is not returning ends with a dynamic body and no static one
    ensures forall i :: i in Indexes(s.fallen) && i !in s.returning ==>
      i in r.bodies.dynamics && i !in r.bodies.statics
    // a returning letter ends with no dynamic body and a static one at its current rest position
    ensures forall i :: i in s.returning ==> i !in r.bodies.dynamics
    ensures forall i :: i in s.returning && 0 <= i < |s.positions| ==>
      i in r.bodies.statics && r.bodies.statics[i] == s.positions[i]
    // letters in neither list keep their bodies
    ensures forall i :: i !in Indexes(s.fallen) && i !in s.returning ==>
      && (i in r.bodies.statics <==> i in s.bodies.statics)
      && (i in r.bodies.dynamics <==> i in s.bodies.dynamics)
      && (i in s.bodies.statics ==> r.bodies.statics[i] == s.bodies.statics[i])
      && (i in s.bodies.dynamics ==> r.bodies.dynamics[i] == s.bodies.dynamics[i])
  {
    var afterFallen := SyncFallen(s.fallen, s.returning, s.bodies);
    s.(bodies := SyncReturning(s.returning, s.positions, afterFallen))
  }

  /** Every event is followed by the body-sync effect. */
  function Step(s: Scene, e: Event): Scene {
    Sync(Apply(s, e))
  }

  function RunEvents(s: Scene, es: seq<Event>): Scene
    decreases |es|
  {
    if |es| == 0 then s else RunEvents(Step(s, es[0]), es[1..])
  }

  // ---------------------------------------------------------------------
  // Invariant

  /** The bookkeeping lists: fallen letters are distinct letters of the
      title; the returning list is a prefix of the fallen indexes, and all of
      them while the reset timer is armed. */
  ghost predicate ListsOk(s: Scene) {
    && NoDup(Indexes(s.fallen))
    && (forall i :: i in Indexes(s.fallen) ==> 0 <= i < |s.positions|)
    && s.returning <= Indexes(s.fallen)
    && (s.resetAt.Some? ==> s.returning == Indexes(s.fallen))
  }

  /** Only letters of the title have bodies. */
  ghost predicate KeysInRange(s: Scene) {
    && (forall i :: i in s.bodies.statics ==> 0 <= i < |s.positions|)
    && (forall i :: i in s.bodies.dynamics ==> 0 <= i < |s.positions|)
  }

  /** A letter that has not fallen rests on a static body only. */
  ghost predicate RestingAnchored(s: Scene) {
    forall i :: 0 <= i < |s.positions| && i !in Indexes(s.fallen) ==>
      i in s.bodies.statics && i !in s.bodies.dynamics
  }

  /** The bodies agree with the lists. */
  ghost predicate Consistent(s: Scene) {
    && RestingAnchored(s)
    && (forall i :: i in Indexes(s.fallen) && i !in s.returning ==>
          i in s.bodies.dynamics && i !in s.bodies.statics)
    && (forall i :: i in s.returning ==>
          && 0 <= i < |s.positions|
          && i in s.bodies.statics && s.bodies.statics[i] == s.positions[i]
          && i !in s.bodies.dynamics)
  }

  ghost predicate Good(s: Scene) {
    ListsOk(s) && KeysInRange(s) && Consistent(s)
  }

  lemma PrefixMember(xs: seq<int>, ys: seq<int>, i: int)
    requires xs <= ys && i in xs
    ensures i in ys
  {
    var k :| 0 <= k < |xs| && xs[k] == i;
    assert ys[k] == i;
  }

  lemma IndexesAppend(fs: seq<Fallen>, f: Fallen)
    ensures Indexes(fs + [f]) == Indexes(fs) + [f.index]
  {
  }

  lemma InitGood(count: nat, vp: Viewport)
    ensures Good(Init(count, vp))
  {
  }

  /** After any event, the state handed to the sync meets what the sync
      needs: sound lists, bodies only for letters, resting letters anchored. */
  lemma ApplyKeeps(s: Scene, e: Event)
    requires Good(s)
    ensures var t := Apply(s, e);
      ListsOk(t) && KeysInRange(t) && RestingAnchored(t) && |t.positions| == |s.positions|
  {
    var t := Apply(s, e);
    match e
    case Hover(i) =>
      if t != s {
        IndexesAppend(s.fallen, Fallen(i, s.positions[i]));
        assert Indexes(t.fallen) == Indexes(s.fallen) + [i];
        assert s.returning <= Indexes(t.fallen);
      }
    case Wheel(now) =>
    case TimerCheck(now) =>
      if t != s {
        forall i | 0 <= i < |s.positions|
          ensures i in s.bodies.statics && i !in s.bodies.dynamics
        {
          if i in Indexes(s.fallen) {
            assert i in s.returning;
          }
        }
      }
    case Resize(vp) =>
  }

  /** The sync turns such a state into a consistent one. */
  lemma SyncRestores(s: Scene)
    requires ListsOk(s) && KeysInRange(s) && RestingAnchored(s)
    ensures Good(Sync(s))
  {
    var r := Sync(s);
    forall i | i in s.returning
      ensures i in Indexes(s.fallen) && 0 <= i < |s.positions|
    {
      PrefixMember(s.returning, Indexes(s.fallen), i);
    }
  }

  /** The invariant holds after every step. */
  lemma StepKeepsGood(s: Scene, e: Event)
    requires Good(s)
    ensures Good(Step(s, e))
  {
    ApplyKeeps(s, e);
    SyncRestores(Apply(s, e));
  }

  /** ... and so in every state reachable from mount. */
  lemma {:induction false} ReachableGood(s: Scene, es: seq<Event>)
    requires Good(s)
    ensures Good(RunEvents(s, es))
    decreases |es|
  {
    if |es| > 0 {
      StepKeepsGood(s, es[0]);
      ReachableGood(Step(s, es[0]), es[1..]);
    }
  }

  /** Every letter of the title has exactly one body, static or dynamic. */
  lemma OneBodyPerLetter(s: Scene, i: int)
    requires Good(s) && 0 <= i < |s.positions|
    ensures (i in s.bodies.statics) != (i in s.bodies.dynamics)
  {
    if i in s.returning {
    } else if i in Indexes(s.fallen) {
    }
  }

  /** No index is ever in both maps. */
  lemma RegistryDisjoint(s: Scene)
    requires Good(s)
    ensures s.bodies.statics.Keys !! s.bodies.dynamics.Keys
  {
    forall i | i in s.bodies.statics
      ensures i !in s.bodies.dynamics
    {
      OneBodyPerLetter(s, i);
    }
  }

  /** On a consistent scene the sync changes nothing. */
  lemma SyncSettled(s: Scene)
    requires Good(s)
    ensures Sync(s) == s
  {
    var r := Sync(s);
    var st, st' := s.bodies.statics, r.bodies.statics;
    var dy, dy' := s.bodies.dynamics, r.bodies.dynamics;
    forall i
      ensures (i in st' <==> i in st) && (i in st ==> st'[i] == st[i])
      ensures (i in dy' <==> i in dy) && (i in dy ==> dy'[i] == dy[i])
    {
      if i in s.returning {
        PrefixMember(s.returning, Indexes(s.fallen), i);
      } else if i in Indexes(s.fallen) {
      } else {
      }
    }
    assert st' == st;
    assert dy' == dy;
  }

  // ---------------------------------------------------------------------
  // Reset gesture and timer

  /** A gesture with nothing fallen is a no-op. */
  lemma IdleWheelIsNoOp(s: Scene, now: int)
    requires Good(s) && |s.fallen| == 0
    ensures Step(s, Wheel(now)) == s
  {
    SyncSettled(s);
  }

  /** A gesture with fallen letters: they all become returning, none keeps a
      dynamic body, each has a static body at its current rest position, and
      the timer is due 700 ms later. */
  lemma WheelReturnsFallen(s: Scene, now: int)
    requires Good(s) && |s.fallen| > 0
    ensures var r := Step(s, Wheel(now));
      && r.fallen == s.fallen
      && r.returning == Indexes(s.fallen)
      && r.resetAt == Some(now + ResetDelay)
      && (forall i :: i in Indexes(s.fallen) ==>
            i !in r.bodies.dynamics && i in r.bodies.statics && r.bodies.statics[i] == r.positions[i])
  {
  }

  /** Another gesture before the timer fires only pushes the deadline back. */
  lemma WheelRestartsTimer(s: Scene, t1: int, t2: int)
    requires Good(s) && |s.fallen| > 0
    ensures var s1 := Step(s, Wheel(t1));
      var s2 := Step(s1, Wheel(t2));
      s2 == s1.(resetAt := Some(t2 + ResetDelay))
  {
    var s1 := Step(s, Wheel(t1));
    StepKeepsGood(s, Wheel(t1));
    var a := Apply(s1, Wheel(t2));
    assert a.bodies.dynamics == s1.bodies.dynamics;
    assert a == s1.(resetAt := Some(t2 + ResetDelay));
    assert Good(a);
    SyncSettled(a);
  }

  /** Before its deadline the timer leaves the scene untouched. */
  lemma TimerWaits(s: Scene, now: int)
    requires Good(s) && s.resetAt.Some? && now < s.resetAt.value
    ensures Step(s, TimerCheck(now)) == s
  {
    assert Apply(s, TimerCheck(now)) == s;
    SyncSettled(s);
  }

  lemma NothingFallenNoDynamics(s: Scene)
    requires KeysInRange(s) && RestingAnchored(s) && s.fallen == []
    ensures s.bodies.dynamics == map[]
  {
    assert Indexes(s.fallen) == [];
    assert forall i :: i !in s.bodies.dynamics;
    assert s.bodies.dynamics.Keys == {};
  }

  /** When the timer fires every letter is at rest again: both lists are
      empty, no dynamic body is left and every returned letter is anchored
      at its current rest position. */
  lemma TimerResets(s: Scene, now: int)
    requires Good(s) && s.resetAt.Some? && now >= s.resetAt.value
    ensures var r := Step(s, TimerCheck(now));
      && r.fallen == [] && r.returning == [] && r.resetAt.None?
      && r.bodies.dynamics == map[]
      && (forall i :: 0 <= i < |r.positions| ==> i in r.bodies.statics)
      && (forall i :: i in s.returning ==> r.bodies.statics[i] == r.positions[i])
  {
    var a := Apply(s, TimerCheck(now));
    assert a == s.(fallen := [], returning := [], resetAt := None);
    ApplyKeeps(s, TimerCheck(now));
    SyncRestores(a);
    var r := Sync(a);
    assert r.bodies == a.bodies;
    NothingFallenNoDynamics(r);
  }

  /** Hovering a letter while a reset is pending cancels the timer: the
      returning letters then stay returning until the next gesture. */
  lemma HoverCancelsReset(s: Scene, i: int)
    requires Good(s) && s.resetAt.Some?
    requires i !in Indexes(s.fallen) && 0 <= i < |s.positions|
    ensures var r := Step(s, Hover(i));
      r.resetAt.None? && r.returning == s.returning
  {
  }

  // ---------------------------------------------------------------------
  // Hover

  /** A hover appends at most one entry and never a duplicate index. */
  lemma HoverNoDuplicates(s: Scene, i: int)
    requires NoDup(Indexes(s.fallen))
    ensures NoDup(Indexes(OnHover(s, i).fallen))
    ensures |OnHover(s, i).fallen| <= |s.fallen| + 1
  {
    if OnHover(s, i) != s {
      IndexesAppend(s.fallen, Fallen(i, s.positions[i]));
    }
  }

  /** A freshly hovered letter gets a dynamic body where it rested, and
      loses its static one. */
  lemma HoverReleases(s: Scene, i: int)
    requires Good(s)
    requires i !in Indexes(s.fallen) && 0 <= i < |s.positions| && i !in s.returning
    ensures var r := Step(s, Hover(i));
      && i in r.bodies.dynamics && r.bodies.dynamics[i] == s.positions[i]
      && i !in r.bodies.statics
  {
    var a := Apply(s, Hover(i));
    IndexesAppend(s.fallen, Fallen(i, s.positions[i]));
    ApplyKeeps(s, Hover(i));
    var k := |s.fallen|;
    assert a.fallen[k] == Fallen(i, s.positions[i]);
    assert i !in a.bodies.dynamics;
  }

  // ---------------------------------------------------------------------
  // Pointer pushes

  /** Only free letters (fallen, not returning) are pushed by the pointer;
      a letter on a static body never is. */
  lemma OnlyFreeLettersPushed(s: Scene, mouse: Point)
    requires Good(s)
    ensures forall i :: i in LetterLayout.Pushed(s.bodies.dynamics, mouse) ==>
      i in Indexes(s.fallen) && i !in s.returning && i !in s.bodies.statics
  {
  }

  // ---------------------------------------------------------------------
  // What is drawn

  /** How a title letter is drawn: `hidden` letters are transparent and
      ignore the pointer; `highlighted` ones are drawn blue, enlarged, and
      animate back into place. */
  datatype LetterStyle = LetterStyle(hidden: bool, highlighted: bool)

  /** The title overlay: nothing until positions are known, then one style
      per letter. */
  function Overlay(s: Scene): (r: seq<LetterStyle>)
    ensures |r| == |s.positions|
    ensures forall i :: 0 <= i < |r| ==>
      && (r[i].hidden <==> i in Indexes(s.fallen) && i !in s.returning)
      && (r[i].highlighted <==> i in s.returning)
  {
    seq(|s.positions|, i requires 0 <= i < |s.positions| =>
      LetterStyle(i in Indexes(s.fallen) && i !in s.returning, i in s.returning))
  }

  /** The falling layer: one span per fallen entry that is not returning,
      in fallen order. */
  function FallingLayer(fs: seq<Fallen>, returning: seq<int>): (r: seq<int>)
    ensures forall i :: i in r <==> i in Indexes(fs) && i !in returning
    ensures |r| <= |fs|
    decreases |fs|
  {
    if |fs| == 0 then []
    else
      assert Indexes(fs) == [fs[0].index] + Indexes(fs[1..]);
      var rest := FallingLayer(fs[1..], returning);
      if fs[0].index in returning then rest else [fs[0].index] + rest
  }

  lemma {:induction false} FallingLayerNoDup(fs: seq<Fallen>, returning: seq<int>)
    requires NoDup(Indexes(fs))
    ensures NoDup(FallingLayer(fs, returning))
    decreases |fs|
  {
    if |fs| > 0 {
      assert Indexes(fs) == [fs[0].index] + Indexes(fs[1..]);
      assert NoDup(Indexes(fs[1..])) by {
        forall j, k | 0 <= j < k < |fs[1..]| ensures Indexes(fs[1..])[j] != Indexes(fs[1..])[k] {
          assert Indexes(fs[1..])[j] == Indexes(fs)[j + 1];
          assert Indexes(fs[1..])[k] == Indexes(fs)[k + 1];
        }
      }
      FallingLayerNoDup(fs[1..], returning);
      assert fs[0].index !in Indexes(fs[1..]) by {
        forall k | 0 <= k < |fs[1..]| ensures Indexes(fs[1..])[k] != fs[0].index {
          assert Indexes(fs)[k + 1] != Indexes(fs)[0];
        }
      }
    }
  }

  /** Every letter of the title is drawn exactly once: either in the
      overlay, or as one span of the falling layer. */
  lemma DrawnOnce(s: Scene, i: int)
    requires Good(s) && 0 <= i < |s.positions|
    ensures Overlay(s)[i].hidden <==> i in FallingLayer(s.fallen, s.returning)
    ensures multiset(FallingLayer(s.fallen, s.returning))[i] <= 1
  {
    FallingLayerNoDup(s.fallen, s.returning);
    CountedOnce(FallingLayer(s.fallen, s.returning), i);
  }

  /** A sequence without duplicates holds each value at most once. */
  lemma {:induction false} CountedOnce(xs: seq<int>, i: int)
    requires NoDup(xs)
    ensures multiset(xs)[i] <= 1
    decreases |xs|
  {
    if |xs| > 0 {
      assert xs == [xs[0]] + xs[1..];
      assert NoDup(xs[1..]) by {
        forall j, k | 0 <= j < k < |xs[1..]| ensures xs[1..][j] != xs[1..][k] {
          assert xs[1..][j] == xs[j + 1] && xs[1..][k] == xs[k + 1];
        }
      }
      CountedOnce(xs[1..], i);
      if xs[0] == i {
        assert i !in xs[1..] by {
          forall k | 0 <= k < |xs[1..]| ensures xs[1..][k] != i {
            assert xs[1..][k] == xs[k + 1];
          }
        }
      }
    }
  }

  /** A hidden letter cannot be hovered again. */
  lemma HiddenLetterIgnoresHover(s: Scene, i: int)
    requires 0 <= i < |s.positions| && Overlay(s)[i].hidden
    ensures OnHover(s, i) == s
  {
  }
}
