/**
 * The timer records of the timer list screen and the whole-list transformations
 * that its handlers apply: append a new record, flip the running flag, zero a
 * record, remove records, and advance every running record by one second.
 * Every transformation here is total and builds a new list from the old one.
 */
module Timers {

  /** One row of the list. `seconds` only ever starts at 0 and grows, so it is a
      `nat`. Ids are derived from the list length when a row is created and are
      NOT guaranteed to be unique (see `Add` and `DuplicateIdAfterDelete`). */
  datatype Timer = Timer(id: int, seconds: nat, isRunning: bool, color: string)

  /** Colour given to a new timer when the colour field is empty. */
  const DefaultColor: string := "#f5fcff"

  /** Every id is the 1-based position of its row: the shape a list has when
      it was built only by adds, before any delete. */
  predicate IdsArePositions(ts: seq<Timer>)
  {
    forall i :: 0 <= i < |ts| ==> ts[i].id == i + 1
  }

  /** No two rows share an id. */
  predicate IdsUnique(ts: seq<Timer>)
  {
    forall i, j :: 0 <= i < j < |ts| ==> ts[i].id != ts[j].id
  }

  /** `a` can be obtained from `b` by dropping elements, keeping the order of
      the rest (decided by greedy matching from the front). */
  predicate IsSubsequence(a: seq<Timer>, b: seq<Timer>)
  {
    if a == [] then true
    else if b == [] then false
    else if a[0] == b[0] then IsSubsequence(a[1..], b[1..])
    else IsSubsequence(a, b[1..])
  }

  // ---------------------------------------------------------------------------
  // The operations
  // ---------------------------------------------------------------------------

  /** The list after pressing "add": a new paused record at zero seconds is
      appended, with id one more than the current length and the colour the
      user typed, or the default colour when the field is empty. */
  function Add(ts: seq<Timer>, colorInput: string): (r: seq<Timer>)
    ensures |r| == |ts| + 1
    ensures r[..|ts|] == ts
    ensures r[|ts|].id == |ts| + 1
    ensures r[|ts|].seconds == 0 && !r[|ts|].isRunning
    ensures colorInput != "" ==> r[|ts|].color == colorInput
    ensures colorInput == "" ==> r[|ts|].color == DefaultColor
  {
    var color := if colorInput == "" then DefaultColor else colorInput;
    ts + [Timer(|ts| + 1, 0, false, color)]
  }

  /** Applies `f` to every element, keeping length and order (the list `map`). */
  function MapTimers(f: Timer -> Timer, ts: seq<Timer>): (r: seq<Timer>)
    ensures |r| == |ts|
    ensures forall i :: 0 <= i < |ts| ==> r[i] == f(ts[i])
  {
    if ts == [] then [] else [f(ts[0])] + MapTimers(f, ts[1..])
  }

  /** Start/pause: every record whose id matches has its running flag flipped;
      nothing else changes. */
  function Toggle(ts: seq<Timer>, id: int): (r: seq<Timer>)
    ensures |r| == |ts|
    ensures forall i :: 0 <= i < |ts| ==>
      r[i].id == ts[i].id && r[i].seconds == ts[i].seconds && r[i].color == ts[i].color
    ensures forall i :: 0 <= i < |ts| && ts[i].id == id ==> r[i].isRunning == !ts[i].isRunning
    ensures forall i :: 0 <= i < |ts| && ts[i].id != id ==> r[i] == ts[i]
  {
    MapTimers((t: Timer) => if t.id == id then t.(isRunning := !t.isRunning) else t, ts)
  }

  /** Reset: every record whose id matches is paused at zero seconds, keeping
      its id and colour; the other records are untouched. */
  function Reset(ts: seq<Timer>, id: int): (r: seq<Timer>)
    ensures |r| == |ts|
    ensures forall i :: 0 <= i < |ts| ==> r[i].id == ts[i].id && r[i].color == ts[i].color
    ensures forall i :: 0 <= i < |ts| && ts[i].id == id ==> r[i].seconds == 0 && !r[i].isRunning
    ensures forall i :: 0 <= i < |ts| && ts[i].id != id ==> r[i] == ts[i]
  {
    MapTimers((t: Timer) => if t.id == id then t.(seconds := 0, isRunning := false) else t, ts)
  }

  /** Delete: keeps the records whose id differs, in their original order
      (the list `filter`); `DeleteKeepsOthers` and `DeleteIsSubsequence` say
      that exactly those records are kept. */
  function Delete(ts: seq<Timer>, id: int): (r: seq<Timer>)
    ensures |r| <= |ts|
    ensures forall t :: t in r ==> t.id != id
  {
    if ts == [] then []
    else if ts[0].id == id then Delete(ts[1..], id)
    else [ts[0]] + Delete(ts[1..], id)
  }

  /** One interval callback: every running record gains exactly one second;
      ids, colours and flags are kept, and no record loses time. */
  function Tick(ts: seq<Timer>): (r: seq<Timer>)
    ensures |r| == |ts|
    ensures forall i :: 0 <= i < |ts| ==>
      r[i].id == ts[i].id && r[i].color == ts[i].color && r[i].isRunning == ts[i].isRunning
    ensures forall i :: 0 <= i < |ts| && ts[i].isRunning ==> r[i].seconds == ts[i].seconds + 1
    ensures forall i :: 0 <= i < |ts| && !ts[i].isRunning ==> r[i] == ts[i]
    ensures forall i :: 0 <= i < |ts| ==> r[i].seconds >= ts[i].seconds
  {
    MapTimers((t: Timer) => if t.isRunning then t.(seconds := t.seconds + 1) else t, ts)
  }

  /** `n` consecutive interval callbacks. */
  function Ticks(ts: seq<Timer>, n: nat): seq<Timer>
  {
    if n == 0 then ts else Tick(Ticks(ts, n - 1))
  }

  /** The list after a run of adds from the empty list, one per colour input. */
  function AddAll(colorInputs: seq<string>): seq<Timer>
  {
    if colorInputs == [] then []
    else Add(AddAll(colorInputs[..|colorInputs| - 1]), colorInputs[|colorInputs| - 1])
  }

  // ---------------------------------------------------------------------------
  // Properties
  // ---------------------------------------------------------------------------

  /** Toggling the same id twice restores the list. */
  lemma ToggleTwice(ts: seq<Timer>, id: int)
    ensures Toggle(Toggle(ts, id), id) == ts
  {
    var r := Toggle(Toggle(ts, id), id);
    forall i | 0 <= i < |ts| ensures r[i] == ts[i] {
      assert Toggle(ts, id)[i].id == ts[i].id;
    }
  }

  /** Toggling an id no record has changes nothing. */
  lemma ToggleAbsent(ts: seq<Timer>, id: int)
    requires forall t :: t in ts ==> t.id != id
    ensures Toggle(ts, id) == ts
  {
    var r := Toggle(ts, id);
    forall i | 0 <= i < |ts| ensures r[i] == ts[i] {
      assert ts[i] in ts;
    }
  }

  /** Resetting twice is the same as resetting once. */
  lemma ResetIdempotent(ts: seq<Timer>, id: int)
    ensures Reset(Reset(ts, id), id) == Reset(ts, id)
  {
    var once := Reset(ts, id);
    var twice := Reset(once, id);
    forall i | 0 <= i < |ts| ensures twice[i] == once[i] {
      if ts[i].id == id {
        assert once[i] == ts[i].(seconds := 0, isRunning := false);
      }
    }
  }

  /** Resetting an id no record has changes nothing. */
  lemma ResetAbsent(ts: seq<Timer>, id: int)
    requires forall t :: t in ts ==> t.id != id
    ensures Reset(ts, id) == ts
  {
    var r := Reset(ts, id);
    forall i | 0 <= i < |ts| ensures r[i] == ts[i] {
      assert ts[i] in ts;
    }
  }

  /** Every record whose id differs survives a delete exactly as often as it
      occurred, and no record with the id survives. */
  lemma {:induction false} DeleteKeepsOthers(ts: seq<Timer>, id: int)
    ensures forall t :: multiset(Delete(ts, id))[t] == if t.id == id then 0 else multiset(ts)[t]
  {
    if ts != [] {
      DeleteKeepsOthers(ts[1..], id);
      assert ts == [ts[0]] + ts[1..];
      assert multiset(ts) == multiset{ts[0]} + multiset(ts[1..]);
      if ts[0].id != id {
        assert multiset(Delete(ts, id)) == multiset{ts[0]} + multiset(Delete(ts[1..], id));
      }
    }
  }

  /** The survivors of a delete appear in the input in the same order. */
  lemma {:induction false} DeleteIsSubsequence(ts: seq<Timer>, id: int)
    ensures IsSubsequence(Delete(ts, id), ts)
  {
    if ts != [] {
      DeleteIsSubsequence(ts[1..], id);
      var r := Delete(ts, id);
      if ts[0].id == id {
        if r != [] {
          assert r[0] in r;
        }
      } else {
        assert r[1..] == Delete(ts[1..], id);
      }
    }
  }

  /** Deleting an id no record has changes nothing. */
  lemma {:induction false} DeleteAbsent(ts: seq<Timer>, id: int)
    requires forall t :: t in ts ==> t.id != id
    ensures Delete(ts, id) == ts
  {
    if ts != [] {
      assert ts[0] in ts;
      forall t | t in ts[1..] ensures t.id != id {
        assert t in ts;
      }
      DeleteAbsent(ts[1..], id);
      assert ts == [ts[0]] + ts[1..];
    }
  }

  /** Deleting twice is the same as deleting once. */
  lemma DeleteIdempotent(ts: seq<Timer>, id: int)
    ensures Delete(Delete(ts, id), id) == Delete(ts, id)
  {
    DeleteAbsent(Delete(ts, id), id);
  }

  /** Delete works piecewise: the result for a concatenation is the
      concatenation of the results, so the surviving records keep their
      relative order exactly. */
  lemma {:induction false} DeleteAppend(a: seq<Timer>, b: seq<Timer>, id: int)
    ensures Delete(a + b, id) == Delete(a, id) + Delete(b, id)
  {
    if a == [] {
      assert a + b == b;
    } else {
      assert (a + b)[0] == a[0];
      assert (a + b)[1..] == a[1..] + b;
      DeleteAppend(a[1..], b, id);
      if a[0].id != id {
        assert Delete(a + b, id) == [a[0]] + (Delete(a[1..], id) + Delete(b, id));
        assert [a[0]] + (Delete(a[1..], id) + Delete(b, id)) == ([a[0]] + Delete(a[1..], id)) + Delete(b, id);
      }
    }
  }

  /** Delete on a single record keeps it exactly when its id differs. */
  lemma DeleteSingle(t: Timer, id: int)
    ensures Delete([t], id) == if t.id == id then [] else [t]
  {
    assert [t][1..] == [];
  }

  /** Only deleting a present id shrinks the list, and the length drops by
      the number of records carrying that id. */
  lemma {:induction false} DeleteLength(ts: seq<Timer>, id: int)
    ensures |Delete(ts, id)| == |ts| - CountId(ts, id)
    ensures |Delete(ts, id)| == |ts| <==> (forall t :: t in ts ==> t.id != id)
  {
    if ts != [] {
      DeleteLength(ts[1..], id);
      assert ts == [ts[0]] + ts[1..];
      assert forall t :: t in ts <==> t == ts[0] || t in ts[1..];
      CountIdBound(ts[1..], id);
    }
  }

  /** Number of records carrying `id`. */
  function CountId(ts: seq<Timer>, id: int): nat
  {
    if ts == [] then 0 else (if ts[0].id == id then 1 else 0) + CountId(ts[1..], id)
  }

  lemma {:induction false} CountIdBound(ts: seq<Timer>, id: int)
    ensures CountId(ts, id) <= |ts|
    ensures CountId(ts, id) == 0 <==> (forall t :: t in ts ==> t.id != id)
  {
    if ts != [] {
      CountIdBound(ts[1..], id);
      assert ts == [ts[0]] + ts[1..];
      assert forall t :: t in ts <==> t == ts[0] || t in ts[1..];
    }
  }

  /** After `n` interval callbacks every record keeps its id, colour and flag,
      a running record has gained exactly `n` seconds and a paused one none. */
  lemma {:induction false} TicksSeconds(ts: seq<Timer>, n: nat)
    ensures |Ticks(ts, n)| == |ts|
    ensures forall i :: 0 <= i < |ts| ==>
      Ticks(ts, n)[i].id == ts[i].id && Ticks(ts, n)[i].color == ts[i].color &&
      Ticks(ts, n)[i].isRunning == ts[i].isRunning &&
      Ticks(ts, n)[i].seconds == ts[i].seconds + (if ts[i].isRunning then n else 0)
  {
    if n > 0 {
      TicksSeconds(ts, n - 1);
    }
  }

  /** Add, toggle, reset and tick keep every id equal to its position, and so
      keep ids unique; a list built by adds alone has this shape. */
  lemma IdsArePositionsPreserved(ts: seq<Timer>, colorInput: string, id: int)
    requires IdsArePositions(ts)
    ensures IdsArePositions(Add(ts, colorInput))
    ensures IdsArePositions(Toggle(ts, id))
    ensures IdsArePositions(Reset(ts, id))
    ensures IdsArePositions(Tick(ts))
  {
    var r := Add(ts, colorInput);
    forall i | 0 <= i < |r| ensures r[i].id == i + 1 {
      if i < |ts| {
        assert r[i] == r[..|ts|][i];
      }
    }
  }

  /** Ids that are positions are unique. */
  lemma IdsArePositionsUnique(ts: seq<Timer>)
    requires IdsArePositions(ts)
    ensures IdsUnique(ts)
  {
  }

  /** Adds from the empty list number the records 1, 2, 3, ... */
  lemma {:induction false} AddAllIds(colorInputs: seq<string>)
    ensures |AddAll(colorInputs)| == |colorInputs|
    ensures IdsArePositions(AddAll(colorInputs))
    ensures IdsUnique(AddAll(colorInputs))
  {
    if colorInputs != [] {
      var prefix := colorInputs[..|colorInputs| - 1];
      AddAllIds(prefix);
      IdsArePositionsPreserved(AddAll(prefix), colorInputs[|colorInputs| - 1], 0);
    }
    IdsArePositionsUnique(AddAll(colorInputs));
  }

  /** Add, add, delete id 1, add: the id is derived from the shrunken length,
      so the list ends with two records that both have id 2, and a toggle of
      id 2 then flips both of them. */
  lemma DuplicateIdAfterDelete(c1: string, c2: string, c3: string)
    ensures var ts := Add(Delete(Add(Add([], c1), c2), 1), c3);
      |ts| == 2 && ts[0].id == 2 && ts[1].id == 2 && !IdsUnique(ts) &&
      Toggle(ts, 2)[0].isRunning && Toggle(ts, 2)[1].isRunning
  {
    var two := Add(Add([], c1), c2);
    assert two[0].id == 1 && two[1].id == 2;
    assert two == [two[0]] + [two[1]];
    DeleteAppend([two[0]], [two[1]], 1);
    DeleteSingle(two[0], 1);
    DeleteSingle(two[1], 1);
    assert Delete(two, 1) == [two[1]];
  }

  /** Add "#ff0000", add "", delete id 1: one record is left, with the default
      colour and its original id 2. */
  lemma AddAddDeleteScenario()
    ensures var ts := Delete(Add(Add([], "#ff0000"), ""), 1);
      |ts| == 1 && ts[0].id == 2 && ts[0].color == DefaultColor && ts[0].seconds == 0
  {
    var two := Add(Add([], "#ff0000"), "");
    assert two == [two[0]] + [two[1]];
    DeleteAppend([two[0]], [two[1]], 1);
    DeleteSingle(two[0], 1);
    DeleteSingle(two[1], 1);
  }
}
