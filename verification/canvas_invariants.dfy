/** What every state reachable from the initial state satisfies, and what
    UNDO does after a snapshotting command. */
module CanvasInvariants {
  import opened Wrappers
  import opened Numbers
  import opened CanvasState

  /** Every z-index in `es` lies in [0, next). */
  ghost predicate ZBounded(es: seq<Element>, next: int) {
    forall e :: e in es ==> 0 <= e.zIndex < next
  }

  /** No two elements of `es` share an id. */
  ghost predicate UniqueIds(es: seq<Element>) {
    forall i, j :: 0 <= i < j < |es| ==> es[i].id != es[j].id
  }

  ghost predicate HasId(es: seq<Element>, id: string) {
    exists e :: e in es && e.id == id
  }

  /** The invariant of reachable states: a valid history window, z-indices
      below the non-negative counter and unique ids in the live elements and in every
      snapshot, and a selection that names a live element. */
  ghost predicate Inv(s: State) {
    && HistoryValid(s)
    && 0 <= s.nextZIndex
    && ZBounded(s.elements, s.nextZIndex)
    && UniqueIds(s.elements)
    && (forall k :: 0 <= k < |s.history| ==> ZBounded(s.history[k], s.nextZIndex) && UniqueIds(s.history[k]))
    && (s.selectedElementId.Some? ==> HasId(s.elements, s.selectedElementId.value))
  }

  /** What the callers in this application guarantee about a command: ids
      handed to ADD are fresh (the reducer does not check), batch ids are
      distinct, the property panel's updates never carry an id or a z-index,
      and the element layer only selects live elements or nothing. */
  ghost predicate Admissible(s: State, a: Action) {
    match a
    case AddElement(e) => !HasId(s.elements, e.id)
    case AddMultipleElements(batch) =>
      UniqueIds(batch) && forall e :: e in batch ==> !HasId(s.elements, e.id)
    case UpdateElement(_, u) => u.id.None? && u.zIndex.None?
    case SelectElement(target) => target.Some? ==> HasId(s.elements, target.value)
    case _ => true
  }

  lemma InitSatisfiesInv()
    ensures Inv(Init)
  {
  }

  /** Snapshots taken by `Snapshotted` come from the old history or the old elements. */
  lemma SnapshotEntries(s: State, r: State)
    requires HistoryValid(s) && Snapshotted(s, r)
    ensures forall k :: 0 <= k < |r.history| ==>
              r.history[k] == s.elements || exists m :: 0 <= m < |s.history| && r.history[k] == s.history[m]
  {
    forall k | 0 <= k < |r.history|
      ensures r.history[k] == s.elements || exists m :: 0 <= m < |s.history| && r.history[k] == s.history[m]
    {
      if k < r.historyIndex {
        var m := s.historyIndex + 1 - r.historyIndex + k;
        assert r.history[k] == s.history[m];
      }
    }
  }

  lemma SnapshotKeepsInv(s: State, r: State)
    requires Inv(s) && Snapshotted(s, r) && HistoryValid(r)
    requires r.nextZIndex >= s.nextZIndex
    ensures forall k :: 0 <= k < |r.history| ==> ZBounded(r.history[k], r.nextZIndex) && UniqueIds(r.history[k])
  {
    SnapshotEntries(s, r);
  }

  /** Uniqueness of a sequence with a head: the head's id is not in the tail and the tail is unique. */
  lemma UniqueCons(x: Element, t: seq<Element>)
    ensures UniqueIds([x] + t) <==> !HasId(t, x.id) && UniqueIds(t)
  {
    var r := [x] + t;
    assert forall i :: 0 <= i < |t| ==> r[i + 1] == t[i];
    if UniqueIds(r) {
      forall e | e in t ensures e.id != x.id {
        var i :| 0 <= i < |t| && t[i] == e;
        assert r[0].id != r[i + 1].id;
      }
      forall i, j | 0 <= i < j < |t| ensures t[i].id != t[j].id {
        assert r[i + 1].id != r[j + 1].id;
      }
    }
    if !HasId(t, x.id) && UniqueIds(t) {
      forall i, j | 0 <= i < j < |r| ensures r[i].id != r[j].id {
        if i == 0 {
          assert r[j] in t;
        } else {
          assert r[i] == t[i - 1] && r[j] == t[j - 1];
        }
      }
    }
  }

  lemma {:induction false} RemoveIdKeepsUnique(es: seq<Element>, id: string)
    requires UniqueIds(es)
    ensures UniqueIds(RemoveId(es, id))
    decreases |es|
  {
    if |es| > 0 {
      assert es == [es[0]] + es[1..];
      UniqueCons(es[0], es[1..]);
      RemoveIdKeepsUnique(es[1..], id);
      var rest := RemoveId(es[1..], id);
      if es[0].id != id {
        assert !HasId(rest, es[0].id);
        UniqueCons(es[0], rest);
      }
    }
  }

  /** Ids are position-wise unchanged, so uniqueness and membership carry over. */
  lemma SameIdsKeepInv(es: seq<Element>, es': seq<Element>, next: int, sel: Option<string>)
    requires |es'| == |es| && forall i :: 0 <= i < |es| ==> es'[i].id == es[i].id
    requires UniqueIds(es)
    requires sel.Some? ==> HasId(es, sel.value)
    ensures UniqueIds(es')
    ensures sel.Some? ==> HasId(es', sel.value)
  {
    if sel.Some? {
      var e :| e in es && e.id == sel.value;
      var i :| 0 <= i < |es| && es[i] == e;
      assert es'[i] in es';
    }
  }

  lemma AddKeepsInv(s: State, e: Element)
    requires Inv(s) && !HasId(s.elements, e.id)
    ensures Inv(AddOne(s, e))
  {
    var r := AddOne(s, e);
    SnapshotKeepsInv(s, r);
    assert r.elements == s.elements + [r.elements[|s.elements|]];
    UniqueAppend(s.elements, r.elements[|s.elements|]);
    if s.selectedElementId.Some? {
      var x :| x in s.elements && x.id == s.selectedElementId.value;
      assert x in r.elements;
    }
  }

  lemma UniqueAppend(es: seq<Element>, x: Element)
    requires UniqueIds(es) && !HasId(es, x.id)
    ensures UniqueIds(es + [x])
  {
    var r := es + [x];
    forall i, j | 0 <= i < j < |r| ensures r[i].id != r[j].id {
      if j == |es| {
        assert r[i] == es[i] && es[i] in es;
      } else {
        assert r[i] == es[i] && r[j] == es[j];
      }
    }
  }

  /** The stamped batch carries the batch's ids and z-indices in [base, base + |batch|). */
  lemma StampedFacts(batch: seq<Element>, base: int)
    requires UniqueIds(batch) && 0 <= base
    ensures UniqueIds(Stamped(batch, base))
    ensures ZBounded(Stamped(batch, base), base + |batch|)
    ensures forall x :: x in Stamped(batch, base) ==> exists e :: e in batch && e.id == x.id
  {
    var st := Stamped(batch, base);
    forall x | x in st ensures exists e :: e in batch && e.id == x.id {
      var i :| 0 <= i < |st| && st[i] == x;
      assert batch[i] in batch;
    }
  }

  /** Joining two id-disjoint unique sequences keeps ids unique. */
  lemma UniqueConcat(a: seq<Element>, b: seq<Element>)
    requires UniqueIds(a) && UniqueIds(b)
    requires forall x :: x in b ==> !HasId(a, x.id)
    ensures UniqueIds(a + b)
  {
    var r := a + b;
    forall i, j | 0 <= i < j < |r| ensures r[i].id != r[j].id {
      if j < |a| {
        assert r[i] == a[i] && r[j] == a[j];
      } else if i < |a| {
        assert r[j] == b[j - |a|] && b[j - |a|] in b;
        assert r[i] == a[i] && a[i] in a;
      } else {
        assert r[i] == b[i - |a|] && r[j] == b[j - |a|];
      }
    }
  }

  lemma AddBatchKeepsInv(s: State, batch: seq<Element>)
    requires Inv(s) && UniqueIds(batch) && forall e :: e in batch ==> !HasId(s.elements, e.id)
    ensures Inv(AddBatch(s, batch))
  {
    var r := AddBatch(s, batch);
    SnapshotKeepsInv(s, r);
    var st := Stamped(batch, s.nextZIndex);
    assert r.elements == s.elements + st;
    StampedFacts(batch, s.nextZIndex);
    UniqueConcat(s.elements, st);
    if s.selectedElementId.Some? {
      var x :| x in s.elements && x.id == s.selectedElementId.value;
      assert x in r.elements;
    }
  }

  lemma DeleteKeepsInv(s: State, id: string)
    requires Inv(s)
    ensures Inv(DeleteMatching(s, id))
  {
    var r := DeleteMatching(s, id);
    SnapshotKeepsInv(s, r);
    RemoveIdKeepsUnique(s.elements, id);
    if r.selectedElementId.Some? {
      var x :| x in s.elements && x.id == s.selectedElementId.value;
      assert x in r.elements;
    }
  }

  /** A command that keeps every id in place and every z-index within the counter keeps the invariant. */
  lemma InPlaceKeepsInv(s: State, r: State)
    requires Inv(s)
    requires r.history == s.history && r.historyIndex == s.historyIndex && r.selectedElementId == s.selectedElementId
    requires r.nextZIndex >= s.nextZIndex
    requires |r.elements| == |s.elements| && forall i :: 0 <= i < |s.elements| ==> r.elements[i].id == s.elements[i].id
    requires forall i :: 0 <= i < |r.elements| ==> 0 <= r.elements[i].zIndex < r.nextZIndex
    ensures Inv(r)
  {
    SameIdsKeepInv(s.elements, r.elements, r.nextZIndex, s.selectedElementId);
  }

  lemma RaiseKeepsInv(s: State, id: string)
    requires Inv(s)
    ensures Inv(RaiseToTop(s, id))
  {
    var r := RaiseToTop(s, id);
    if |s.elements| > 0 {
      assert s.elements[0] in s.elements;
      forall i | 0 <= i < |r.elements| ensures 0 <= r.elements[i].zIndex < r.nextZIndex {
        assert s.elements[i] in s.elements;
      }
      InPlaceKeepsInv(s, r);
    }
  }

  lemma LowerKeepsInv(s: State, id: string)
    requires Inv(s)
    ensures Inv(LowerToBottom(s, id))
  {
    var r := LowerToBottom(s, id);
    if |s.elements| > 0 {
      assert s.elements[0] in s.elements;
      forall i | 0 <= i < |r.elements| ensures 0 <= r.elements[i].zIndex < r.nextZIndex {
        assert s.elements[i] in s.elements;
      }
      InPlaceKeepsInv(s, r);
    }
  }

  /** Update, move and resize keep ids and z-indices in place. */
  lemma MapKeepsInv(s: State, r: State)
    requires Inv(s)
    requires r.history == s.history && r.historyIndex == s.historyIndex && r.selectedElementId == s.selectedElementId
    requires r.nextZIndex == s.nextZIndex
    requires |r.elements| == |s.elements|
    requires forall i :: 0 <= i < |s.elements| ==> r.elements[i].id == s.elements[i].id && r.elements[i].zIndex == s.elements[i].zIndex
    ensures Inv(r)
  {
    forall i | 0 <= i < |r.elements| ensures 0 <= r.elements[i].zIndex < r.nextZIndex {
      assert s.elements[i] in s.elements;
    }
    InPlaceKeepsInv(s, r);
  }

  lemma UndoKeepsInv(s: State)
    requires Inv(s)
    ensures Inv(UndoOnce(s))
  {
    if s.historyIndex > 0 {
      assert ZBounded(s.history[s.historyIndex - 1], s.nextZIndex);
    }
  }

  lemma StepPreservesInv(s: State, a: Action)
    requires Inv(s) && Admissible(s, a)
    ensures Inv(Step(s, a))
  {
    match a
    case AddElement(e) => AddKeepsInv(s, e);
    case AddMultipleElements(batch) => AddBatchKeepsInv(s, batch);
    case DeleteElement(id) => DeleteKeepsInv(s, id);
    case UpdateElement(id, u) => MapKeepsInv(s, UpdateMatching(s, id, u));
    case MoveElement(id, x, y) => MapKeepsInv(s, MoveMatching(s, id, x, y));
    case ResizeElement(id, w, h) => MapKeepsInv(s, ResizeMatching(s, id, w, h));
    case BringForward(id) => RaiseKeepsInv(s, id);
    case SendBackward(id) => LowerKeepsInv(s, id);
    case SelectElement(t) =>
    case SetCanvasBackground(b) =>
    case Undo => UndoKeepsInv(s);
  }

  /** Every command of `acts` is admissible in the state it is dispatched in. */
  ghost predicate AllAdmissible(s: State, acts: seq<Action>)
    requires HistoryValid(s)
    decreases |acts|
  {
    |acts| == 0 || (Admissible(s, acts[0]) && AllAdmissible(Step(s, acts[0]), acts[1..]))
  }

  lemma {:induction false} RunPreservesInv(s: State, acts: seq<Action>)
    requires Inv(s) && AllAdmissible(s, acts)
    ensures Inv(Run(s, acts))
    decreases |acts|
  {
    if |acts| > 0 {
      StepPreservesInv(s, acts[0]);
      RunPreservesInv(Step(s, acts[0]), acts[1..]);
    }
  }

  /** Reachable states keep the invariant. */
  lemma ReachableInv(acts: seq<Action>)
    requires AllAdmissible(Init, acts)
    ensures Inv(Run(Init, acts))
  {
    InitSatisfiesInv();
    RunPreservesInv(Init, acts);
  }

  /** Whatever the commands, the history of a reachable state holds 1..50
      snapshots and its index is in range, and the counter never goes below 1. */
  lemma {:induction false} HistoryAlwaysBounded(acts: seq<Action>)
    ensures 1 <= |Run(Init, acts).history| <= 50
    ensures 0 <= Run(Init, acts).historyIndex < |Run(Init, acts).history|
    ensures Run(Init, acts).nextZIndex >= 1
  {
  }

  /** UNDO on a state just snapshotted from `s` reloads the entry below the top. */
  lemma UndoOnSnapshotted(s: State, r: State)
    requires HistoryValid(s) && HistoryValid(r) && Snapshotted(s, r)
    ensures UndoOnce(r).elements == s.history[s.historyIndex]
    ensures UndoOnce(r).historyIndex == |r.history| - 2
  {
    assert r.historyIndex >= 1;
    assert r.history[r.historyIndex - 1] == s.history[s.historyIndex + 1 - r.historyIndex + (r.historyIndex - 1)];
  }

  /** UNDO right after a snapshotting command reloads the snapshot that was
      on top BEFORE that command, not the one the command pushed. */
  lemma UndoAfterSnapshot(s: State, a: Action)
    requires HistoryValid(s) && a.TakesSnapshot()
    ensures Step(Step(s, a), Undo).elements == s.history[s.historyIndex]
    ensures Step(Step(s, a), Undo).historyIndex == |Step(s, a).history| - 2
  {
    var r := Step(s, a);
    assert Step(r, Undo) == UndoOnce(r);
    UndoOnSnapshotted(s, r);
  }

  /** From the initial state, two additions followed by one UNDO leave the
      canvas empty, although the state before the second addition held the
      first element. */
  lemma TwoAddsThenUndoEmpties(a: Element, b: Element)
    ensures Step(Step(Step(Init, AddElement(a)), AddElement(b)), Undo).elements == []
    ensures Step(Init, AddElement(a)).elements != []
  {
    var s1 := Step(Init, AddElement(a));
    assert s1 == AddOne(Init, a);
    assert Snapshotted(Init, s1);
    assert s1.historyIndex == 1 && s1.history[0] == Init.history[0] == [];
    UndoAfterSnapshot(s1, AddElement(b));
  }

  /** UNDO as evidently intended: reload the snapshot AT the index, which is
      the elements as they were before the latest snapshotting command. */
  function UndoRestoringSnapshot(s: State): (r: State)
    requires HistoryValid(s)
    ensures HistoryValid(r)
    ensures s.historyIndex == 0 ==> r == s
    ensures s.historyIndex > 0 ==>
              r.elements == s.history[s.historyIndex] && r.historyIndex == s.historyIndex - 1
              && r.selectedElementId.None? && r.history == s.history && r.nextZIndex == s.nextZIndex
  {
    if s.historyIndex > 0 then
      s.(elements := s.history[s.historyIndex], historyIndex := s.historyIndex - 1, selectedElementId := None)
    else s
  }

  /** With the corrected UNDO, undoing a snapshotting command restores exactly
      the elements it started from, and clears the selection. */
  lemma UndoRestoringSnapshotInverts(s: State, a: Action)
    requires HistoryValid(s) && a.TakesSnapshot()
    ensures UndoRestoringSnapshot(Step(s, a)).elements == s.elements
    ensures UndoRestoringSnapshot(Step(s, a)).selectedElementId.None?
    ensures UndoRestoringSnapshot(Step(s, a)).nextZIndex == Step(s, a).nextZIndex
  {
    var r := Step(s, a);
    assert r.historyIndex >= 1;
  }

  /** Commands that take no snapshot never change what UNDO will restore. */
  lemma {:induction false} NonSnapshotRunKeepsHistory(s: State, acts: seq<Action>)
    requires HistoryValid(s)
    requires forall i :: 0 <= i < |acts| ==> !acts[i].TakesSnapshot() && !acts[i].Undo?
    ensures Run(s, acts).history == s.history && Run(s, acts).historyIndex == s.historyIndex
    ensures Step(Run(s, acts), Undo).elements == Step(s, Undo).elements || s.historyIndex == 0
    decreases |acts|
  {
    if |acts| > 0 {
      NonSnapshotRunKeepsHistory(Step(s, acts[0]), acts[1..]);
    }
  }

  /** The filter DELETE applies distributes over concatenation. */
  lemma {:induction false} RemoveIdDistributes(a: seq<Element>, b: seq<Element>, id: string)
    ensures RemoveId(a + b, id) == RemoveId(a, id) + RemoveId(b, id)
    decreases |a|
  {
    if |a| > 0 {
      assert (a + b)[0] == a[0] && (a + b)[1..] == a[1..] + b;
      RemoveIdDistributes(a[1..], b, id);
    } else {
      assert a + b == b;
    }
  }

  /** DELETE keeps every other element, in place relative to the rest: an
      element standing between `before` and `after` still stands between
      what is left of them. */
  lemma DeletePreservesOrder(s: State, id: string, before: seq<Element>, x: Element, after: seq<Element>)
    requires HistoryValid(s)
    requires s.elements == before + [x] + after && x.id != id
    ensures Step(s, DeleteElement(id)).elements == RemoveId(before, id) + [x] + RemoveId(after, id)
  {
    assert Step(s, DeleteElement(id)).elements == RemoveId(s.elements, id);
    RemoveIdDistributes(before + [x], after, id);
    RemoveIdDistributes(before, [x], id);
    assert RemoveId([x], id) == [x];
    assert RemoveId(before + [x], id) == RemoveId(before, id) + [x];
  }

  /** A command naming an id that no element carries leaves the elements as
      they were; UPDATE, MOVE and RESIZE then leave the whole state as it was. */
  lemma UnknownIdLeavesElements(s: State, a: Action)
    requires HistoryValid(s)
    requires a.UpdateElement? || a.MoveElement? || a.ResizeElement? || a.BringForward? || a.SendBackward?
    requires forall i :: 0 <= i < |s.elements| ==> s.elements[i].id != a.id
    ensures Step(s, a).elements == s.elements
    ensures a.UpdateElement? || a.MoveElement? || a.ResizeElement? ==> Step(s, a) == s
  {
    var r := Step(s, a);
    assert |r.elements| == |s.elements|;
    assert forall i :: 0 <= i < |s.elements| ==> r.elements[i] == s.elements[i];
  }
}
