/** What the document store promises, proved about `Store.Step`: the
    history invariant, branch discarding, the undo/redo round trips, and what
    each command does to the element list and the selection. */
module StoreProperties {
  import opened Wrappers
  import opened Store

  /** The commands that always record a history entry. */
  predicate IsRecordedEdit(c: Command) {
    || c.AddElement?
    || c.UpdateElementLayout?
    || c.UpdateElementProperties?
    || c.RemoveElement?
    || (c.ImportLayout? && c.data.Some?)
  }

  /** An edit that records history: the recorded edits, and a duplication
      of an element that exists. */
  predicate ChangesHistory(s: State, c: Command) {
    IsRecordedEdit(c) || (c.DuplicateElement? && c.id in Ids(s.elements))
  }

  // ---------------------------------------------------------------------
  // The history invariant

  /** Every command keeps `elements == present` and the flags derived. */
  lemma StepKeepsConsistent(s: State, c: Command)
    requires Consistent(s)
    ensures Consistent(Step(s, c))
  {
  }

  /** From any consistent state, and so from the initial one, every sequence
      of commands ends in a consistent state. */
  lemma {:induction false} RunKeepsConsistent(s: State, cmds: seq<Command>)
    requires Consistent(s)
    ensures Consistent(Run(s, cmds))
    decreases |cmds|
  {
    if cmds != [] {
      StepKeepsConsistent(s, cmds[0]);
      RunKeepsConsistent(Step(s, cmds[0]), cmds[1..]);
    }
  }

  lemma InitialIsConsistent()
    ensures Consistent(Initial())
    ensures Initial().elements == [] && Initial().selectedElementId == None
  {
  }

  // ---------------------------------------------------------------------
  // Recording history

  /** Every edit pushes the pre-command present onto the past and discards
      the redo branch, whatever the id it names. */
  lemma EditRecordsHistory(s: State, c: Command)
    requires ChangesHistory(s, c)
    ensures Step(s, c).past == s.past + [s.present]
    ensures Step(s, c).future == []
    ensures Step(s, c).canUndo && !Step(s, c).canRedo
  {
  }

  /** Updating or removing an id that matches no element still records a
      history entry, but leaves the elements and the present as they were. */
  lemma MissingIdEditsOnlyRecord(s: State, c: Command)
    requires Consistent(s)
    requires c.UpdateElementLayout? || c.UpdateElementProperties? || c.RemoveElement?
    requires c.id !in Ids(s.elements)
    ensures Step(s, c).elements == s.elements
    ensures Step(s, c).present == s.present
    ensures Step(s, c).past == s.past + [s.present] && Step(s, c).future == []
  {
    if c.RemoveElement? {
      RemoveAbsent(s.elements, c.id);
    }
  }

  lemma {:induction false} RemoveAbsent(es: Snapshot, id: string)
    requires id !in Ids(es)
    ensures RemoveById(es, id) == es
  {
    if es != [] {
      assert es[0] in es;
      assert Ids(es[1..]) <= Ids(es) by {
        forall e | e in es[1..] ensures e in es { }
      }
      RemoveAbsent(es[1..], id);
      assert es == [es[0]] + es[1..];
    }
  }

  /** The commands that leave the element list and the history alone. */
  lemma NoOpCommands(s: State, selection: Option<string>)
    ensures |s.past| == 0 ==> Step(s, Command.Undo) == s
    ensures |s.future| == 0 ==> Step(s, Command.Redo) == s
    ensures Step(s, Command.ImportLayout(None)) == s
    ensures Step(s, Command.SetSelectedElementId(selection)) == s.(selectedElementId := selection)
  {
  }

  /** Duplicating an id that matches no element changes nothing at all. */
  lemma DuplicateMissingIsNoOp(s: State, id: string, newId: string)
    requires id !in Ids(s.elements)
    ensures Step(s, Command.DuplicateElement(id, newId)) == s
  {
  }

  // ---------------------------------------------------------------------
  // Undo and redo

  /** Redo right after undo restores the elements and the whole history;
      only the selection is cleared. */
  lemma UndoThenRedo(s: State)
    requires Consistent(s)
    requires |s.past| > 0
    ensures Step(Step(s, Command.Undo), Command.Redo) == s.(selectedElementId := None)
  {
    var u := Step(s, Command.Undo);
    assert u.past + [u.present] == s.past;
    assert u.future[1..] == s.future;
  }

  /** Undo right after redo restores the elements and the whole history;
      only the selection is cleared. */
  lemma RedoThenUndo(s: State)
    requires Consistent(s)
    requires |s.future| > 0
    ensures Step(Step(s, Command.Redo), Command.Undo) == s.(selectedElementId := None)
  {
    var r := Step(s, Command.Redo);
    assert r.past[..|r.past| - 1] == s.past;
    assert [r.present] + r.future == s.future;
  }

  /** Undo right after an edit gives back the elements and the past from
      before the edit; the undone state is the only redo entry. */
  lemma UndoAfterEdit(s: State, c: Command)
    requires Consistent(s)
    requires ChangesHistory(s, c)
    ensures Step(Step(s, c), Command.Undo)
         == s.(future := [Step(s, c).present], canRedo := true, selectedElementId := None)
  {
    EditRecordsHistory(s, c);
    var t := Step(s, c);
    assert t.past[..|t.past| - 1] == s.past;
  }

  /** Undo and then redo after an edit give back the edited elements. */
  lemma EditUndoRedo(s: State, c: Command)
    requires Consistent(s)
    requires ChangesHistory(s, c)
    ensures Step(Step(Step(s, c), Command.Undo), Command.Redo) == Step(s, c).(selectedElementId := None)
  {
    StepKeepsConsistent(s, c);
    EditRecordsHistory(s, c);
    UndoThenRedo(Step(s, c));
  }

  /** After an undo, any edit leaves nothing to redo. */
  lemma EditAfterUndoDiscardsRedo(s: State, c: Command)
    requires ChangesHistory(Step(s, Command.Undo), c)
    ensures !Step(Step(s, Command.Undo), c).canRedo
    ensures Step(Step(s, Command.Undo), c).future == []
  {
    EditRecordsHistory(Step(s, Command.Undo), c);
  }

  // ---------------------------------------------------------------------
  // What each command does to the element list

  /** `addElement` appends exactly one element, with the type's default
      size and properties, placed at the given cell, and selects it. */
  lemma AddElementAppends(s: State, kind: string, x: int, y: int, newId: string)
    ensures var r := Step(s, Command.AddElement(kind, x, y, newId));
      && |r.elements| == |s.elements| + 1
      && r.elements[..|s.elements|] == s.elements
      && r.elements[|s.elements|].id == newId
      && r.elements[|s.elements|].kind == kind
      && r.elements[|s.elements|].layout.x == x
      && r.elements[|s.elements|].layout.y == y
      && (r.elements[|s.elements|].layout.w, r.elements[|s.elements|].layout.h) == DefaultSize(kind)
      && r.elements[|s.elements|].properties == DefaultProperties(kind)
      && r.selectedElementId == Some(newId)
  {
    var r := Step(s, Command.AddElement(kind, x, y, newId));
    assert r.elements[..|s.elements|] == s.elements;
  }

  /** A type outside the twelve gets the generic 6 by 4 size and no
      properties; a known type gets a size of at least one cell each way and
      a default padding. */
  lemma DefaultsFallback(kind: string)
    ensures kind !in ElementTypes ==> DefaultSize(kind) == (6, 4) && DefaultProperties(kind) == map[]
    ensures kind in ElementTypes ==> DefaultSize(kind).0 >= 1 && DefaultSize(kind).1 >= 1
    ensures kind in ElementTypes ==> "padding" in DefaultProperties(kind)
  {
  }

  /** The size lookup as written agrees with the intended fallback for
      every type name except the inherited member names. */
  lemma SizeLookupAgreesOutsideInherited(kind: string)
    requires kind !in InheritedMembers
    ensures DefaultSizeAsWritten(kind) == Some(DefaultSize(kind))
  {
  }

  /** The discrepancy: `constructor` is not an element type, so the generic
      6 by 4 size is intended, but the lookup as written finds the inherited
      `constructor` and leaves the new element without a width or height.
      The property bag agrees with the intended one: spreading the inherited
      value copies nothing, and `DefaultProperties` gives the empty bag. */
  lemma InheritedNameLosesSize()
    ensures "constructor" !in ElementTypes
    ensures DefaultSizeAsWritten("constructor") == None
    ensures DefaultSize("constructor") == (6, 4)
    ensures DefaultProperties("constructor") == map[]
  {
  }

  /** `updateElementLayout` changes only the first element with the id,
      and in it only the supplied layout fields. */
  lemma UpdateLayoutOnlyTarget(s: State, id: string, p: PartialLayout, i: int)
    requires 0 <= i < |s.elements|
    ensures var r := Step(s, Command.UpdateElementLayout(id, p));
      && |r.elements| == |s.elements|
      && (!IsFirstWithId(s.elements, id, i) ==> r.elements[i] == s.elements[i])
      && (IsFirstWithId(s.elements, id, i) ==>
            && r.elements[i].id == id
            && r.elements[i].kind == s.elements[i].kind
            && r.elements[i].properties == s.elements[i].properties
            && r.elements[i].layout.x == (if p.x.Some? then p.x.value else s.elements[i].layout.x)
            && r.elements[i].layout.y == (if p.y.Some? then p.y.value else s.elements[i].layout.y)
            && r.elements[i].layout.w == (if p.w.Some? then p.w.value else s.elements[i].layout.w)
            && r.elements[i].layout.h == (if p.h.Some? then p.h.value else s.elements[i].layout.h))
  {
    FirstWithIdUnique(s.elements, id, i);
  }

  /** `updateElementProperties` changes only the first element with the id,
      and in its bag only the supplied keys. */
  lemma UpdatePropertiesOnlyTarget(s: State, id: string, props: map<string, Value>, i: int, k: string)
    requires 0 <= i < |s.elements|
    ensures var r := Step(s, Command.UpdateElementProperties(id, props));
      && |r.elements| == |s.elements|
      && (!IsFirstWithId(s.elements, id, i) ==> r.elements[i] == s.elements[i])
      && (IsFirstWithId(s.elements, id, i) ==>
            && r.elements[i].id == id
            && r.elements[i].kind == s.elements[i].kind
            && r.elements[i].layout == s.elements[i].layout
            && (k in r.elements[i].properties <==> k in props || k in s.elements[i].properties)
            && (k in props ==> r.elements[i].properties[k] == props[k])
            && (k !in props && k in s.elements[i].properties ==>
                  r.elements[i].properties[k] == s.elements[i].properties[k]))
  {
    FirstWithIdUnique(s.elements, id, i);
  }

  lemma FirstWithIdUnique(es: Snapshot, id: string, i: int)
    requires 0 <= i < |es|
    ensures IsFirstWithId(es, id, i) <==> FindIndex(es, id) == Some(i)
  {
    if IsFirstWithId(es, id, i) {
      assert id in Ids(es) by { assert es[i] in es; }
    }
  }

  /** `removeElement` keeps exactly the elements with another id, each as
      often as before, and clears the selection exactly when it was the id. */
  lemma RemoveKeepsOthers(s: State, id: string, e: Element)
    ensures var r := Step(s, Command.RemoveElement(id));
      && (e in r.elements <==> e in s.elements && e.id != id)
      && multiset(r.elements)[e] == (if e.id == id then 0 else multiset(s.elements)[e])
      && r.selectedElementId == (if s.selectedElementId == Some(id) then None else s.selectedElementId)
  {
    RemoveCounts(s.elements, id, e);
  }

  lemma {:induction false} RemoveCounts(es: Snapshot, id: string, e: Element)
    ensures multiset(RemoveById(es, id))[e] == (if e.id == id then 0 else multiset(es)[e])
  {
    if es != [] {
      RemoveCounts(es[1..], id, e);
      assert es == [es[0]] + es[1..];
    }
  }

  /** Removal keeps the original order: it distributes over concatenation. */
  lemma {:induction false} RemoveKeepsOrder(a: Snapshot, b: Snapshot, id: string)
    ensures RemoveById(a + b, id) == RemoveById(a, id) + RemoveById(b, id)
  {
    if a != [] {
      assert (a + b)[1..] == a[1..] + b;
      RemoveKeepsOrder(a[1..], b, id);
    } else {
      assert a + b == b;
    }
  }

  /** `duplicateElement` on an existing id appends one copy of the first
      element with that id, under the new id and moved by one cell in each
      direction, and selects the copy. */
  lemma DuplicateAppendsCopy(s: State, id: string, newId: string, i: int)
    requires IsFirstWithId(s.elements, id, i)
    ensures var r := Step(s, Command.DuplicateElement(id, newId));
      && r.elements[..|s.elements|] == s.elements
      && |r.elements| == |s.elements| + 1
      && r.elements[|s.elements|].id == newId
      && r.elements[|s.elements|].kind == s.elements[i].kind
      && r.elements[|s.elements|].properties == s.elements[i].properties
      && r.elements[|s.elements|].layout
         == Layout(s.elements[i].layout.x + 1, s.elements[i].layout.y + 1,
                   s.elements[i].layout.w, s.elements[i].layout.h)
      && r.selectedElementId == Some(newId)
  {
    FirstWithIdUnique(s.elements, id, i);
    var r := Step(s, Command.DuplicateElement(id, newId));
    assert r.elements[..|s.elements|] == s.elements;
  }

  /** Exporting and importing the result leaves the elements as they were,
      clears the selection, and records one history entry. */
  lemma ExportImportRoundTrip(s: State)
    requires Consistent(s)
    ensures var r := Step(s, Command.ImportLayout(Some(ExportLayout(s))));
      && r.elements == s.elements
      && r.selectedElementId == None
      && r.past == s.past + [s.present]
      && Consistent(r)
  {
  }

  // ---------------------------------------------------------------------
  // Distinct ids

  /** Every list the store holds, live or in history, has distinct ids. */
  predicate HistoryDistinct(s: State) {
    && DistinctIds(s.elements)
    && DistinctIds(s.present)
    && (forall k :: 0 <= k < |s.past| ==> DistinctIds(s.past[k]))
    && (forall k :: 0 <= k < |s.future| ==> DistinctIds(s.future[k]))
  }

  /** The id-generator's promise, and for imports a document whose ids are
      distinct: the preconditions under which a command keeps ids unique. */
  predicate Admitted(s: State, c: Command) {
    match c
    case AddElement(_, _, _, newId) => newId !in Ids(s.elements)
    case DuplicateElement(_, newId) => newId !in Ids(s.elements)
    case ImportLayout(data) => data.Some? ==> DistinctIds(data.value)
    case _ => true
  }

  /** Each command of the sequence is admitted in the state it runs in. */
  predicate AdmittedRun(s: State, cmds: seq<Command>)
    decreases |cmds|
  {
    cmds == [] || (Admitted(s, cmds[0]) && AdmittedRun(Step(s, cmds[0]), cmds[1..]))
  }

  lemma AppendFreshKeepsDistinct(es: Snapshot, e: Element)
    requires DistinctIds(es)
    requires e.id !in Ids(es)
    ensures DistinctIds(es + [e])
  {
    forall i | 0 <= i < |es| ensures es[i].id != e.id {
      assert es[i] in es;
    }
  }

  lemma {:induction false} RemoveKeepsDistinct(es: Snapshot, id: string)
    requires DistinctIds(es)
    ensures DistinctIds(RemoveById(es, id))
  {
    if es != [] {
      var tail := es[1..];
      RemoveKeepsDistinct(tail, id);
      if es[0].id != id {
        var r := RemoveById(tail, id);
        forall j | 0 <= j < |r| ensures r[j].id != es[0].id {
          assert r[j] in tail;
          var k :| 0 <= k < |tail| && tail[k] == r[j];
          assert es[k + 1] == r[j];
        }
        assert RemoveById(es, id) == [es[0]] + r;
      }
    }
  }

  /** An admitted command keeps the ids of every list distinct. */
  lemma StepKeepsDistinct(s: State, c: Command)
    requires HistoryDistinct(s)
    requires Admitted(s, c)
    ensures HistoryDistinct(Step(s, c))
  {
    var r := Step(s, c);
    match c
    case AddElement(kind, x, y, newId) =>
      AppendFreshKeepsDistinct(s.elements, NewElement(kind, x, y, newId));
    case UpdateElementLayout(id, p) =>
      assert forall k :: 0 <= k < |s.elements| ==> r.elements[k].id == s.elements[k].id;
    case UpdateElementProperties(id, props) =>
      assert forall k :: 0 <= k < |s.elements| ==> r.elements[k].id == s.elements[k].id;
    case RemoveElement(id) =>
      RemoveKeepsDistinct(s.elements, id);
    case DuplicateElement(id, newId) =>
      var index := FindIndex(s.elements, id);
      if index.Some? {
        AppendFreshKeepsDistinct(s.elements, Duplicate(s.elements[index.value], newId));
      }
    case SetSelectedElementId(_) =>
    case ImportLayout(_) =>
    case Undo =>
      if |s.past| > 0 {
        assert r.elements == s.past[|s.past| - 1];
        assert forall k :: 0 <= k < |r.past| ==> r.past[k] == s.past[k];
        assert forall k :: 0 < k < |r.future| ==> r.future[k] == s.future[k - 1];
      }
    case Redo =>
      if |s.future| > 0 {
        assert forall k :: 0 <= k < |r.future| ==> r.future[k] == s.future[k + 1];
      }
  }

  /** Uniqueness: along any admitted sequence of commands, every list the
      store holds keeps distinct ids. */
  lemma {:induction false} RunKeepsDistinct(s: State, cmds: seq<Command>)
    requires HistoryDistinct(s)
    requires AdmittedRun(s, cmds)
    ensures HistoryDistinct(Run(s, cmds))
    decreases |cmds|
  {
    if cmds != [] {
      StepKeepsDistinct(s, cmds[0]);
      RunKeepsDistinct(Step(s, cmds[0]), cmds[1..]);
    }
  }

  // ---------------------------------------------------------------------
  // Worked scenarios

  /** Adding a button to the empty page, undoing and redoing. */
  lemma ButtonScenario(id: string)
    ensures var a := Step(Initial(), Command.AddElement("button", 1, 1, id));
      && a.elements == [Element(id, "button", Layout(1, 1, 6, 2), DefaultProperties("button"))]
      && a.canUndo && !a.canRedo
      && var u := Step(a, Command.Undo);
      && u.elements == [] && !u.canUndo && u.canRedo
      && var r := Step(u, Command.Redo);
      && r.elements == a.elements && r.canUndo && !r.canRedo
  {
  }

  /** Duplicating an element at {2, 3, 6, 4} places the copy at {3, 4, 6, 4}. */
  lemma DuplicateOffsetExample(e: Element, newId: string)
    requires e.layout == Layout(2, 3, 6, 4)
    requires e.id != newId
    ensures var r := Step(State([e], None, [], [e], [], false, false), Command.DuplicateElement(e.id, newId));
      && r.elements == [e, Duplicate(e, newId)]
      && r.elements[1].layout == Layout(3, 4, 6, 4)
      && r.elements[1].id != e.id
  {
  }
}
