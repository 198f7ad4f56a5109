/**
  The single-owner handles of unique_object.h. Any number of them is a world in which every handed-out value is
  always in exactly one place; the class at the end takes its steps in place.
 */
module UniqueObject {
  import opened Wrappers

  type Value = nat
  type Traits = nat
  type Id = nat

  /** A handle; None is the invalid value. Its traits are what frees the value. */
  datatype Handle = Handle(value: Option<Value>, traits: Traits)

  datatype Freed = Freed(value: Value, with: Traits)

  /** `home` has every value ever handed to a handle, with the traits it was first given. */
  datatype World = World(handles: map<Id, Handle>, released: set<Value>, freed: seq<Freed>, home: map<Value, Traits>, aborted: bool)

  const EMPTY: World := World(map[], {}, [], map[], false)

  datatype Step =
    | Construct(a: Id, value: Option<Value>, traits: Traits)
    | MoveConstruct(a: Id, b: Id)
    | MoveAssign(a: Id, b: Id)
    | Reset(a: Id, value: Option<Value>)
    | Swap(a: Id, b: Id)
    | Release(a: Id)
    | Destroy(a: Id)

  /** What a caller may hand over: nothing, something new, or something released to it. */
  predicate Owns(w: World, value: Option<Value>) {
    value == None || value.value !in w.home || value.value in w.released
  }

  predicate Enabled(w: World, e: Step) {
    && !w.aborted
    && match e
       case Construct(a, value, traits) => a !in w.handles && Owns(w, value)
       case MoveConstruct(a, b) => a !in w.handles && b in w.handles
       case MoveAssign(a, b) => a in w.handles && b in w.handles
       case Reset(a, value) => a in w.handles && (Owns(w, value) || value == w.handles[a].value)
       case Swap(a, b) => a in w.handles && b in w.handles
       case Release(a) => a in w.handles
       case Destroy(a) => a in w.handles
  }

  function FreeIfNecessary(w: World, a: Id): World
    requires a in w.handles
  {
    var h := w.handles[a];
    if h.value == None then w
    else w.(freed := w.freed + [Freed(h.value.value, h.traits)], handles := w.handles[a := h.(value := None)])
  }

  /** `reset`, whose check stops the program. */
  function Put(w: World, a: Id, value: Option<Value>): World
    requires a in w.handles
  {
    if w.handles[a].value != None && w.handles[a].value == value then w.(aborted := true)
    else
      var w' := FreeIfNecessary(w, a);
      w'.(handles := w'.handles[a := w'.handles[a].(value := value)])
  }

  /** The handle gives up its value. */
  function Clear(w: World, a: Id): World
    requires a in w.handles
  {
    w.(handles := w.handles[a := w.handles[a].(value := None)])
  }

  /** The caller hands a value to a handle with the given traits. */
  function Hand(w: World, value: Option<Value>, traits: Traits): World {
    if value == None then w
    else
      w.(released := w.released - {value.value},
         home := if value.value in w.home then w.home else w.home[value.value := traits])
  }

  function Apply(w: World, e: Step): World
    requires Enabled(w, e)
  {
    match e
    case Construct(a, value, traits) => Hand(w, value, traits).(handles := w.handles[a := Handle(value, traits)])
    case MoveConstruct(a, b) =>
      var w' := Clear(w, b);
      w'.(handles := w'.handles[a := w.handles[b]])
    case MoveAssign(a, b) => Put(Clear(w, b), a, w.handles[b].value)
    case Reset(a, value) => Put(Hand(w, value, w.handles[a].traits), a, value)
    case Swap(a, b) => w.(handles := w.handles[a := w.handles[b]][b := w.handles[a]])
    case Release(a) =>
      var v := w.handles[a].value;
      if v == None then w else Clear(w, a).(released := w.released + {v.value})
    case Destroy(a) =>
      var w' := FreeIfNecessary(w, a);
      w'.(handles := w'.handles - {a})
  }

  ghost predicate Run(worlds: seq<World>, steps: seq<Step>) {
    && |worlds| == |steps| + 1 && worlds[0] == EMPTY
    && forall i :: 0 <= i < |steps| ==> Enabled(worlds[i], steps[i]) && worlds[i + 1] == Apply(worlds[i], steps[i])
  }

  // ---------- every value is in one place ----------

  predicate Holds(w: World, a: Id, v: Value) { a in w.handles && w.handles[a].value == Some(v) }

  predicate WasFreed(w: World, v: Value) { exists i :: 0 <= i < |w.freed| && w.freed[i].value == v }

  ghost predicate Held(w: World, v: Value) { exists a :: Holds(w, a, v) }

  /** Every handed-out value is in one place; `loose` is on its way between two. */
  ghost predicate Accounted(w: World, loose: Option<Value>) {
    && (forall a, b, v :: Holds(w, a, v) && Holds(w, b, v) ==> a == b)
    && (forall i, j :: 0 <= i < j < |w.freed| ==> w.freed[i].value != w.freed[j].value)
    && (forall a, v :: Holds(w, a, v) ==> v in w.home && v !in w.released && !WasFreed(w, v) && loose != Some(v))
    && (forall v :: v in w.released ==> v in w.home && !WasFreed(w, v) && loose != Some(v))
    && (forall v :: WasFreed(w, v) ==> v in w.home && loose != Some(v))
    && (loose.Some? ==> loose.value in w.home)
    && (forall v :: v in w.home ==> Held(w, v) || v in w.released || WasFreed(w, v) || loose == Some(v))
  }

  ghost predicate Inv(w: World) { Accounted(w, None) }

  /** Whoever holds something in `w` and is not `a` still holds it in `w'`, and the other way round. */
  lemma HeldElsewhere(w: World, w': World, a: Id, v: Value)
    requires a in w.handles && w.handles[a].value != Some(v) && Held(w, v)
    requires forall b :: b != a && b in w.handles ==> b in w'.handles && w'.handles[b] == w.handles[b]
    ensures Held(w', v)
  {
    var b :| Holds(w, b, v);
    assert Holds(w', b, v);
  }

  lemma ClearKeeps(w: World, a: Id)
    requires Inv(w) && a in w.handles
    ensures Accounted(Clear(w, a), w.handles[a].value)
  {
    var w' := Clear(w, a);
    assert forall b: Id, v: Value :: Holds(w', b, v) ==> Holds(w, b, v) && b != a;
    assert forall v :: WasFreed(w', v) <==> WasFreed(w, v);
    assert w.handles[a].value.Some? ==> Holds(w, a, w.handles[a].value.value);
    forall v | v in w'.home
      ensures Held(w', v) || v in w'.released || WasFreed(w', v) || w.handles[a].value == Some(v)
    {
      if Held(w, v) && w.handles[a].value != Some(v) {
        HeldElsewhere(w, w', a, v);
      }
    }
  }

  lemma HandKeeps(w: World, value: Option<Value>, traits: Traits)
    requires Inv(w) && Owns(w, value)
    ensures Accounted(Hand(w, value, traits), value)
  {
    var w' := Hand(w, value, traits);
    assert forall b: Id, v: Value :: Holds(w', b, v) <==> Holds(w, b, v);
    assert forall v :: WasFreed(w', v) <==> WasFreed(w, v);
    assert forall v :: Held(w, v) ==> Held(w', v);
  }

  lemma FreeKeeps(w: World, a: Id, loose: Option<Value>)
    requires Accounted(w, loose) && a in w.handles
    ensures Accounted(FreeIfNecessary(w, a), loose)
  {
    var w' := FreeIfNecessary(w, a);
    var h := w.handles[a];
    if h.value != None {
      assert Holds(w, a, h.value.value);
      assert forall b: Id, v: Value :: Holds(w', b, v) ==> Holds(w, b, v) && b != a;
      FreeAppends(w, w', h.value.value);
      forall v | v in w'.home
        ensures Held(w', v) || v in w'.released || WasFreed(w', v) || loose == Some(v)
      {
        if Held(w, v) && h.value != Some(v) {
          HeldElsewhere(w, w', a, v);
        }
      }
    }
  }

  lemma FreeAppends(w: World, w': World, x: Value)
    requires |w'.freed| == |w.freed| + 1 && w'.freed[..|w.freed|] == w.freed && w'.freed[|w.freed|].value == x
    ensures forall v :: WasFreed(w', v) <==> WasFreed(w, v) || v == x
  {
    forall v
      ensures WasFreed(w', v) <==> WasFreed(w, v) || v == x
    {
      if WasFreed(w, v) {
        var i :| 0 <= i < |w.freed| && w.freed[i].value == v;
        assert w'.freed[i].value == v;
      }
      if WasFreed(w', v) && v != x {
        var i :| 0 <= i < |w'.freed| && w'.freed[i].value == v;
        assert w.freed[i].value == v;
      }
    }
  }

  /** A handle that holds nothing takes the loose value. */
  lemma PlaceKeeps(w: World, w': World, a: Id, h: Handle)
    requires Accounted(w, h.value) && (a in w.handles ==> w.handles[a].value == None)
    requires w' == w.(handles := w.handles[a := h])
    ensures Inv(w')
  {
    assert forall b: Id, v: Value :: Holds(w', b, v) <==> Holds(w, b, v) || (b == a && h.value == Some(v));
    assert forall v :: WasFreed(w', v) <==> WasFreed(w, v);
    forall v | v in w'.home
      ensures Held(w', v) || v in w'.released || WasFreed(w', v)
    {
      if h.value == Some(v) {
        assert Holds(w', a, v);
      } else if Held(w, v) {
        var b :| Holds(w, b, v);
        assert Holds(w', b, v);
      }
    }
  }

  lemma PutKeeps(w: World, a: Id, value: Option<Value>)
    requires Accounted(w, value) && a in w.handles
    ensures Inv(Put(w, a, value)) && Put(w, a, value).aborted == w.aborted
  {
    assert value.Some? ==> !Holds(w, a, value.value);
    FreeKeeps(w, a, value);
    var w' := FreeIfNecessary(w, a);
    PlaceKeeps(w', Put(w, a, value), a, w'.handles[a].(value := value));
  }

  lemma SwapKeeps(w: World, a: Id, b: Id)
    requires Inv(w) && a in w.handles && b in w.handles && !w.aborted
    ensures Inv(Apply(w, Swap(a, b)))
  {
    var w' := Apply(w, Swap(a, b));
    forall c: Id, v: Value
      ensures Holds(w', c, v) <==> Holds(w, if c == a then b else if c == b then a else c, v)
    {
    }
    assert forall v :: WasFreed(w', v) <==> WasFreed(w, v);
    forall v | v in w'.home
      ensures Held(w', v) || v in w'.released || WasFreed(w', v)
    {
      if Held(w, v) {
        var c :| Holds(w, c, v);
        assert Holds(w', if c == a then b else if c == b then a else c, v);
      }
    }
  }

  /** Every value that nobody has now is released to the caller. */
  lemma ReleaseKeeps(w: World, w': World, loose: Option<Value>)
    requires Accounted(w, loose) && loose.Some? && w' == w.(released := w.released + {loose.value})
    ensures Inv(w')
  {
    assert forall b: Id, v: Value :: Holds(w', b, v) <==> Holds(w, b, v);
    assert forall v :: WasFreed(w', v) <==> WasFreed(w, v);
    assert forall v :: Held(w, v) ==> Held(w', v);
  }

  lemma DropKeeps(w: World, w': World, a: Id)
    requires Inv(w) && a in w.handles && w.handles[a].value == None && w' == w.(handles := w.handles - {a})
    ensures Inv(w')
  {
    assert forall b: Id, v: Value :: Holds(w', b, v) ==> Holds(w, b, v);
    assert forall v :: WasFreed(w', v) <==> WasFreed(w, v);
    forall v | v in w'.home
      ensures Held(w', v) || v in w'.released || WasFreed(w', v)
    {
      if Held(w, v) {
        HeldElsewhere(w, w', a, v);
      }
    }
  }

  /** Every step keeps the account; only a reset to the value already held stops the program. */
  lemma InvStep(w: World, e: Step)
    requires Inv(w) && Enabled(w, e)
    ensures Inv(Apply(w, e))
    ensures Apply(w, e).aborted <==> e.Reset? && e.value.Some? && Holds(w, e.a, e.value.value)
  {
    var w' := Apply(w, e);
    match e
    case Construct(a, value, traits) =>
      HandKeeps(w, value, traits);
      PlaceKeeps(Hand(w, value, traits), w', a, Handle(value, traits));
    case MoveConstruct(a, b) =>
      ClearKeeps(w, b);
      PlaceKeeps(Clear(w, b), w', a, w.handles[b]);
    case MoveAssign(a, b) =>
      ClearKeeps(w, b);
      PutKeeps(Clear(w, b), a, w.handles[b].value);
    case Reset(a, value) =>
      if value.Some? && Holds(w, a, value.value) {
        assert w.released - {value.value} == w.released;
        AbortKeeps(w);
      } else {
        HandKeeps(w, value, w.handles[a].traits);
        PutKeeps(Hand(w, value, w.handles[a].traits), a, value);
      }
    case Swap(a, b) =>
      SwapKeeps(w, a, b);
    case Release(a) =>
      if w.handles[a].value != None {
        ClearKeeps(w, a);
        ReleaseKeeps(Clear(w, a), w', w.handles[a].value);
      }
    case Destroy(a) =>
      FreeKeeps(w, a, None);
      DropKeeps(FreeIfNecessary(w, a), w', a);
  }

  lemma AbortKeeps(w: World)
    requires Inv(w)
    ensures Inv(w.(aborted := true))
  {
    var w' := w.(aborted := true);
    assert forall b: Id, v: Value :: Holds(w', b, v) <==> Holds(w, b, v);
    assert forall v :: WasFreed(w', v) <==> WasFreed(w, v);
    assert forall v :: Held(w, v) ==> Held(w', v);
  }

  lemma {:induction false} RunInv(worlds: seq<World>, steps: seq<Step>, i: nat)
    requires Run(worlds, steps) && i < |worlds|
    ensures Inv(worlds[i])
  {
    if i != 0 {
      RunInv(worlds, steps, i - 1);
      InvStep(worlds[i - 1], steps[i - 1]);
    }
  }

  /** The handles that hold `v`, and how often it has been freed. */
  function Holders(w: World, v: Value): set<Id> {
    set a | a in w.handles && w.handles[a].value == Some(v)
  }

  function TimesFreed(freed: seq<Freed>, v: Value): nat {
    if freed == [] then 0 else TimesFreed(freed[1..], v) + if freed[0].value == v then 1 else 0
  }

  lemma {:induction false} FreedOnce(freed: seq<Freed>, v: Value)
    requires forall i, j :: 0 <= i < j < |freed| ==> freed[i].value != freed[j].value
    ensures TimesFreed(freed, v) == if exists i :: 0 <= i < |freed| && freed[i].value == v then 1 else 0
  {
    if freed != [] {
      FreedOnce(freed[1..], v);
      if i :| 1 <= i < |freed| && freed[i].value == v {
        assert freed[1..][i - 1].value == v;
      }
    }
  }

  /**
    In every run a value that was handed over is in exactly one place, and in no place before that: the handles that
    hold it, the caller it was released to and the times it was freed add up to one.
   */
  lemma EveryValueIsInOnePlace(worlds: seq<World>, steps: seq<Step>, i: nat, v: Value)
    requires Run(worlds, steps) && i < |worlds|
    ensures var w := worlds[i];
            |Holders(w, v)| + (if v in w.released then 1 else 0) + TimesFreed(w.freed, v) == if v in w.home then 1 else 0
  {
    RunInv(worlds, steps, i);
    var w := worlds[i];
    FreedOnce(w.freed, v);
    assert WasFreed(w, v) <==> exists k :: 0 <= k < |w.freed| && w.freed[k].value == v;
    if a: Id :| Holds(w, a, v) {
      assert forall b: Id :: b in Holders(w, v) ==> Holds(w, b, v);
      assert Holders(w, v) == {a};
    } else {
      assert forall b: Id :: b in Holders(w, v) ==> Holds(w, b, v);
      assert Holders(w, v) == {};
    }
  }

  /** So when every handle is gone, whatever was not released has been freed once. */
  lemma NothingLeaks(worlds: seq<World>, steps: seq<Step>, i: nat, v: Value)
    requires Run(worlds, steps) && i < |worlds| && worlds[i].handles == map[] && v in worlds[i].home
    ensures TimesFreed(worlds[i].freed, v) == if v in worlds[i].released then 0 else 1
  {
    EveryValueIsInOnePlace(worlds, steps, i, v);
    assert Holders(worlds[i], v) == {};
  }

  // ---------- who holds what ----------

  /** What handle `c` holds. */
  function ValueIn(w: World, c: Id): Option<Value> { if c in w.handles then w.handles[c].value else None }

  /** The value freed by a step, if any. */
  predicate Frees(w: World, w': World, value: Option<Value>) {
    if value == None then w'.freed == w.freed
    else |w'.freed| == |w.freed| + 1 && w'.freed[..|w.freed|] == w.freed && w'.freed[|w.freed|].value == value.value
  }

  /**
    Where every step leaves the values: a move takes the value over and frees what was there, unless it goes to
    the same handle; a swap exchanges values and traits; a release hands the value to the caller; a reset and the
    end of a handle free what it held. Nothing else moves.
   */
  lemma StepMoves(w: World, e: Step)
    requires Enabled(w, e) && !Apply(w, e).aborted
    ensures var w' := Apply(w, e);
            && (forall c :: c in w.handles && c != e.a && !(HasSecond(e) && c == e.b) ==>
                  c in w'.handles && w'.handles[c] == w.handles[c])
            && match e
               case Construct(a, value, traits) =>
                 a in w'.handles && w'.handles[a] == Handle(value, traits) && Frees(w, w', None)
               case MoveConstruct(a, b) =>
                 && a in w'.handles && w'.handles[a] == w.handles[b] && ValueIn(w', b) == None
                 && b in w'.handles && w'.handles[b].traits == w.handles[b].traits && Frees(w, w', None)
               case MoveAssign(a, b) =>
                 && a in w'.handles && b in w'.handles && ValueIn(w', a) == ValueIn(w, b)
                 && (a != b ==> ValueIn(w', b) == None)
                 && w'.handles[a].traits == w.handles[a].traits && w'.handles[b].traits == w.handles[b].traits
                 && Frees(w, w', if a == b then None else ValueIn(w, a))
               case Reset(a, value) =>
                 && a in w'.handles && ValueIn(w', a) == value && w'.handles[a].traits == w.handles[a].traits
                 && Frees(w, w', ValueIn(w, a))
               case Swap(a, b) =>
                 && a in w'.handles && b in w'.handles
                 && w'.handles[a] == w.handles[b] && w'.handles[b] == w.handles[a] && Frees(w, w', None)
               case Release(a) =>
                 && a in w'.handles && ValueIn(w', a) == None && w'.handles[a].traits == w.handles[a].traits
                 && w'.released == w.released + (if ValueIn(w, a) == None then {} else {ValueIn(w, a).value})
                 && Frees(w, w', None)
               case Destroy(a) => a !in w'.handles && Frees(w, w', ValueIn(w, a))
  {
  }

  predicate HasSecond(e: Step) { e.MoveConstruct? || e.MoveAssign? || e.Swap? }

  // ---------- which traits free a value ----------

  /** Every value is held and freed by the traits it was first given. */
  ghost predicate AtHome(w: World) {
    && (forall a, v :: Holds(w, a, v) ==> v in w.home && w.handles[a].traits == w.home[v])
    && (forall i :: 0 <= i < |w.freed| ==> w.freed[i].value in w.home && w.freed[i].with == w.home[w.freed[i].value])
  }

  /** No value comes to a handle with other traits than its own: move assignment and reset do not bring the traits along. */
  predicate Matching(w: World, e: Step)
    requires Enabled(w, e)
  {
    match e
    case MoveAssign(a, b) => w.handles[b].value == None || w.handles[a].traits == w.handles[b].traits
    case Construct(a, value, traits) => value != None && value.value in w.home ==> w.home[value.value] == traits
    case Reset(a, value) => value != None && value.value in w.home ==> w.home[value.value] == w.handles[a].traits
    case _ => true
  }

  lemma MatchingKeeps(w: World, e: Step)
    requires Inv(w) && AtHome(w) && Enabled(w, e) && Matching(w, e)
    ensures AtHome(Apply(w, e))
  {
    var w' := Apply(w, e);
    forall a: Id, v: Value | Holds(w', a, v)
      ensures v in w'.home && w'.handles[a].traits == w'.home[v]
    {
      HolderMatches(w, e, a, v);
    }
    forall i | 0 <= i < |w'.freed|
      ensures w'.freed[i].value in w'.home && w'.freed[i].with == w'.home[w'.freed[i].value]
    {
      if i == |w.freed| {
        assert Holds(w, e.a, w'.freed[i].value);
      } else {
        assert w'.freed[i] == w.freed[i];
      }
    }
  }

  lemma HolderMatches(w: World, e: Step, a: Id, v: Value)
    requires Inv(w) && AtHome(w) && Enabled(w, e) && Matching(w, e) && Holds(Apply(w, e), a, v)
    ensures v in Apply(w, e).home && Apply(w, e).handles[a].traits == Apply(w, e).home[v]
  {
    if a in w.handles && w.handles[a].value == Some(v) {
      assert Holds(w, a, v);
    } else if (e.MoveConstruct? || e.MoveAssign? || e.Swap?) && a == e.a {
      assert Holds(w, e.b, v);
    } else if e.Swap? && a == e.b {
      assert Holds(w, e.a, v);
    }
  }

  lemma MismatchStrays(w: World, e: Step)
    requires Inv(w) && AtHome(w) && Enabled(w, e) && !Matching(w, e)
    ensures !AtHome(Apply(w, e))
  {
    var w' := Apply(w, e);
    var v := if e.MoveAssign? then w.handles[e.b].value.value else e.value.value;
    InvStep(w, e);
    assert e.MoveAssign? ==> Holds(w, e.b, v);
    assert e.Reset? ==> !Holds(w, e.a, v);
    assert Holds(w', e.a, v);
  }

  ghost predicate AllMatching(worlds: seq<World>, steps: seq<Step>)
    requires |steps| <= |worlds|
  {
    forall i :: 0 <= i < |steps| ==> Enabled(worlds[i], steps[i]) && Matching(worlds[i], steps[i])
  }

  lemma {:induction false} AtHomeWhileMatching(worlds: seq<World>, steps: seq<Step>, i: nat)
    requires Run(worlds, steps) && AllMatching(worlds, steps) && i < |worlds|
    ensures AtHome(worlds[i])
  {
    if i != 0 {
      AtHomeWhileMatching(worlds, steps, i - 1);
      RunInv(worlds, steps, i - 1);
      MatchingKeeps(worlds[i - 1], steps[i - 1]);
    }
  }

  /** In a run every value stays with its own traits, to the end, exactly when no step mismatches. */
  lemma AtHomeIffMatching(worlds: seq<World>, steps: seq<Step>)
    requires Run(worlds, steps)
    ensures (forall i :: 0 <= i < |worlds| ==> AtHome(worlds[i])) <==> AllMatching(worlds, steps)
  {
    if AllMatching(worlds, steps) {
      forall i | 0 <= i < |worlds|
        ensures AtHome(worlds[i])
      {
        AtHomeWhileMatching(worlds, steps, i);
      }
    } else {
      var i :| 0 <= i < |steps| && !Matching(worlds[i], steps[i]);
      RunInv(worlds, steps, i);
      if AtHome(worlds[i]) {
        MismatchStrays(worlds[i], steps[i]);
      }
      assert !AtHome(worlds[i]) || !AtHome(worlds[i + 1]);
    }
  }

  // ---------- the handle in place ----------

  /** What `Traits::Free` has been called with. */
  class FreeLog {
    var freed: seq<Freed>
    constructor ()
      ensures freed == []
    {
      freed := [];
    }
  }

  class UniqueObject {
    const id: Id
    const log: FreeLog
    var value: Option<Value>
    var traits: Traits

    /** This object is the handle `id` of the world. */
    ghost predicate In(w: World)
      reads this, log
    {
      id in w.handles && w.handles[id] == Handle(value, traits) && log.freed == w.freed
    }

    constructor (id: Id, log: FreeLog, value: Option<Value>, traits: Traits, ghost w: World)
      requires Enabled(w, Construct(id, value, traits)) && log.freed == w.freed
      ensures this.id == id && this.log == log && In(Apply(w, Construct(id, value, traits)))
    {
      this.id, this.log, this.value, this.traits := id, log, value, traits;
    }

    constructor Move(id: Id, other: UniqueObject, ghost w: World)
      requires other.In(w) && Enabled(w, MoveConstruct(id, other.id))
      modifies other
      ensures this.id == id && this.log == other.log
      ensures In(Apply(w, MoveConstruct(id, other.id))) && other.In(Apply(w, MoveConstruct(id, other.id)))
    {
      this.id, log := id, other.log;
      value := other.value;
      traits := other.traits;
      new;
      other.value := None;
    }

    method FreeIfNecessary()
      modifies this`value, log
      ensures value == None
      ensures log.freed == old(log.freed) + if old(value) == None then [] else [Freed(old(value).value, traits)]
    {
      if value != None {
        log.freed := log.freed + [Freed(value.value, traits)];
        value := None;
      }
    }

    /** The body of `reset`; false where its check stops the program. */
    method Put(v: Option<Value>) returns (ok: bool)
      modifies this`value, log
      ensures ok <==> old(value) == None || old(value) != v
      ensures !ok ==> value == old(value) && log.freed == old(log.freed)
      ensures ok ==> value == v
      ensures ok ==> log.freed == old(log.freed) + if old(value) == None then [] else [Freed(old(value).value, traits)]
    {
      if !(value == None || value != v) {
        return false;
      }
      FreeIfNecessary();
      value := v;
      ok := true;
    }

    /** The body of `release`. */
    method Clear() returns (v: Option<Value>)
      modifies this`value
      ensures v == old(value) && value == None
    {
      v := value;
      value := None;
    }

    method Reset(v: Option<Value>, ghost w: World) returns (ok: bool, ghost w': World)
      requires In(w) && Enabled(w, Step.Reset(id, v))
      modifies this`value, log
      ensures w' == Apply(w, Step.Reset(id, v)) && In(w') && ok == !w'.aborted
    {
      ok := Put(v);
      w' := Apply(w, Step.Reset(id, v));
    }

    /** Also when `other` is this object. */
    method MoveAssign(other: UniqueObject, ghost w: World) returns (ok: bool, ghost w': World)
      requires In(w) && other.In(w) && log == other.log && (id == other.id ==> this == other)
      requires Enabled(w, Step.MoveAssign(id, other.id))
      modifies this`value, other`value, log
      ensures w' == Apply(w, Step.MoveAssign(id, other.id)) && In(w') && other.In(w') && ok == !w'.aborted
    {
      var v := other.Clear();
      ok := Put(v);
      w' := Apply(w, Step.MoveAssign(id, other.id));
    }

    method Swap(other: UniqueObject, ghost w: World) returns (ghost w': World)
      requires In(w) && other.In(w) && (id == other.id ==> this == other)
      requires Enabled(w, Step.Swap(id, other.id))
      modifies this, other
      ensures w' == Apply(w, Step.Swap(id, other.id)) && In(w') && other.In(w')
    {
      var t := traits;
      traits := other.traits;
      other.traits := t;
      var v := value;
      value := other.value;
      other.value := v;
      w' := Apply(w, Step.Swap(id, other.id));
    }

    method Release(ghost w: World) returns (v: Option<Value>, ghost w': World)
      requires In(w) && Enabled(w, Step.Release(id))
      modifies this`value
      ensures w' == Apply(w, Step.Release(id)) && In(w')
      ensures v == old(value) && (v.Some? ==> v.value in w'.released)
    {
      v := Clear();
      w' := Apply(w, Step.Release(id));
    }

    /** The destructor. */
    method Destroy(ghost w: World) returns (ghost w': World)
      requires In(w) && Enabled(w, Step.Destroy(id))
      modifies this`value, log
      ensures w' == Apply(w, Step.Destroy(id)) && id !in w'.handles && log.freed == w'.freed
    {
      FreeIfNecessary();
      w' := Apply(w, Step.Destroy(id));
    }
  }
}
