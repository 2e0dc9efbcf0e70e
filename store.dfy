/** The page builder's document store: the ordered element list, the
    selection, and the linear undo/redo history of element-list snapshots.

    `Step` is the meaning of every store command as a function of the state
    before it; the class `BuilderStore` holds the same state in fields and
    its methods are proved to perform exactly `Step`. */
module Store {
  import opened Wrappers

  /** An element's rectangle on the grid, in grid cells. */
  datatype Layout = Layout(x: int, y: int, w: int, h: int)

  /** A value in an element's property bag: text or a number. */
  datatype Value = Str(s: string) | Num(n: int)

  /** A placed building block. `kind` is the element's `type` string. */
  datatype Element = Element(id: string, kind: string, layout: Layout, properties: map<string, Value>)

  /** A full copy of the element list at one point in time. */
  type Snapshot = seq<Element>

  /** The layout fields a caller supplies to `updateElementLayout`; `None`
      is a field the caller left out. */
  datatype PartialLayout = PartialLayout(x: Option<int>, y: Option<int>, w: Option<int>, h: Option<int>)

  /** The whole store: `elements`, `selectedElementId`, the history lists
      and the two derived flags. */
  datatype State = State(
    elements: Snapshot,
    selectedElementId: Option<string>,
    past: seq<Snapshot>,
    present: Snapshot,
    future: seq<Snapshot>,
    canUndo: bool,
    canRedo: bool)

  /** The store commands that change state. `newId` is the identifier the
      store draws from its random-id generator while running the command. */
  datatype Command =
    | AddElement(kind: string, x: int, y: int, newId: string)
    | UpdateElementLayout(id: string, layout: PartialLayout)
    | UpdateElementProperties(id: string, properties: map<string, Value>)
    | RemoveElement(id: string)
    | DuplicateElement(id: string, newId: string)
    | SetSelectedElementId(selection: Option<string>)
    | ImportLayout(data: Option<Snapshot>)
    | Undo
    | Redo

  /** The twelve element types the default tables know. */
  const ElementTypes: set<string> :=
    {"text", "heading1", "heading2", "button", "image", "container",
     "columns", "link", "list", "form", "video", "map"}

  /** The names every JavaScript object inherits from `Object.prototype`;
      a property lookup on an object literal such as the size table finds
      them as well. */
  const InheritedMembers: set<string> :=
    {"constructor", "__proto__", "__defineGetter__", "__defineSetter__",
     "__lookupGetter__", "__lookupSetter__", "hasOwnProperty", "isPrototypeOf",
     "propertyIsEnumerable", "toLocaleString", "toString", "valueOf"}

  /** The default `{w, h}` of a new element of a type; any other type gets
      the generic `{w: 6, h: 4}`. This is the intended fallback, which the
      store uses; `DefaultSizeAsWritten` is the lookup as the code does it. */
  function DefaultSize(kind: string): (int, int) {
    match kind
    case "text" => (12, 2)
    case "heading1" => (24, 2)
    case "heading2" => (20, 2)
    case "button" => (6, 2)
    case "image" => (12, 8)
    case "container" => (12, 8)
    case "columns" => (12, 8)
    case "link" => (6, 1)
    case "list" => (12, 6)
    case "form" => (12, 10)
    case "video" => (12, 8)
    case "map" => (12, 8)
    case _ => (6, 4)
  }

  /** `const { w, h } = defaultSizes[type] || { w: 6, h: 4 }` as the code
      does it: a type of the table gets its size, any other name the generic
      size, except an inherited member name. That lookup finds a truthy
      function or object, so the fallback is skipped and the destructuring
      gives `undefined` for both `w` and `h`, written `None`. */
  function DefaultSizeAsWritten(kind: string): (r: Option<(int, int)>)
    ensures r.None? <==> kind in InheritedMembers
    ensures kind in ElementTypes ==> r == Some(DefaultSize(kind))
  {
    if kind in ElementTypes then Some(DefaultSize(kind))
    else if kind in InheritedMembers then None
    else Some((6, 4))
  }

  /** The default property bag of a new element of a type; any other type
      gets an empty bag. */
  function DefaultProperties(kind: string): map<string, Value> {
    match kind
    case "text" =>
      map["text" := Str("Text content"), "color" := Str("#000000"),
          "fontSize" := Str("16px"), "padding" := Str("8px")]
    case "heading1" =>
      map["text" := Str("Heading 1"), "color" := Str("#000000"), "fontSize" := Str("32px"),
          "padding" := Str("8px"), "fontWeight" := Str("bold")]
    case "heading2" =>
      map["text" := Str("Heading 2"), "color" := Str("#000000"), "fontSize" := Str("24px"),
          "padding" := Str("8px"), "fontWeight" := Str("semibold")]
    case "button" =>
      map["text" := Str("Button"), "url" := Str("#"), "color" := Str("#ffffff"),
          "backgroundColor" := Str("#8b5cf6"), "fontSize" := Str("16px"),
          "padding" := Str("8px 16px"), "borderRadius" := Str("4px"), "variant" := Str("default")]
    case "image" =>
      map["src" := Str("/placeholder.svg?height=200&width=400"), "alt" := Str("Image"),
          "padding" := Str("0px")]
    case "container" =>
      map["backgroundColor" := Str("#ffffff"), "padding" := Str("16px"), "borderRadius" := Str("8px")]
    case "columns" =>
      map["backgroundColor" := Str("#ffffff"), "padding" := Str("16px"), "borderRadius" := Str("8px")]
    case "link" =>
      map["text" := Str("Link"), "url" := Str("#"), "color" := Str("#8b5cf6"),
          "fontSize" := Str("16px"), "padding" := Str("4px")]
    case "list" =>
      map["items" := Str("Item 1\nItem 2\nItem 3"), "listType" := Str("ul"), "color" := Str("#000000"),
          "fontSize" := Str("16px"), "padding" := Str("8px")]
    case "form" =>
      map["formTitle" := Str("Contact Form"), "submitText" := Str("Submit"), "padding" := Str("16px"),
          "backgroundColor" := Str("#ffffff"), "borderRadius" := Str("8px")]
    case "video" =>
      map["videoUrl" := Str("https://www.youtube.com/watch?v=dQw4w9WgXcQ"), "padding" := Str("0px")]
    case "map" =>
      map["location" := Str("New York, NY"), "zoom" := Num(10), "padding" := Str("0px")]
    case _ => map[]
  }

  /** The store as the application creates it. */
  function Initial(): State {
    State([], None, [], [], [], false, false)
  }

  /** The store's invariant: the live list is the history's present, and
      the two flags are what the history lists say. */
  predicate Consistent(s: State) {
    && s.elements == s.present
    && s.canUndo == (|s.past| > 0)
    && s.canRedo == (|s.future| > 0)
  }

  function Ids(es: Snapshot): set<string> {
    set e | e in es :: e.id
  }

  /** No two elements of the list share an id. */
  predicate DistinctIds(es: Snapshot) {
    forall i, j :: 0 <= i < j < |es| ==> es[i].id != es[j].id
  }

  /** `i` is the index `findIndex`/`find` stop at when looking for `id`. */
  predicate IsFirstWithId(es: Snapshot, id: string, i: int) {
    && 0 <= i < |es|
    && es[i].id == id
    && forall j :: 0 <= j < i ==> es[j].id != id
  }

  /** `findIndex(element => element.id === id)`, with `None` for -1. */
  function FindIndex(es: Snapshot, id: string): (r: Option<nat>)
    ensures r.Some? ==> IsFirstWithId(es, id, r.value)
    ensures r.None? <==> id !in Ids(es)
  {
    if es == [] then None
    else if es[0].id == id then Some(0)
    else
      match FindIndex(es[1..], id)
      case None => None
      case Some(i) => Some(i + 1)
  }

  /** `{...layout, ...partial}`: each supplied field replaces the old one. */
  function MergeLayout(l: Layout, p: PartialLayout): Layout {
    Layout(
      if p.x.Some? then p.x.value else l.x,
      if p.y.Some? then p.y.value else l.y,
      if p.w.Some? then p.w.value else l.w,
      if p.h.Some? then p.h.value else l.h)
  }

  /** `elements.filter(element => element.id !== id)`. */
  function RemoveById(es: Snapshot, id: string): (r: Snapshot)
    ensures |r| <= |es|
    ensures forall e :: e in r <==> e in es && e.id != id
  {
    if es == [] then []
    else (if es[0].id == id then [] else [es[0]]) + RemoveById(es[1..], id)
  }

  /** What every recorded edit does to the history first: push the current
      present, drop the redo branch, and set the flags to match. */
  function Record(s: State): State {
    s.(past := s.past + [s.present], future := [], canUndo := true, canRedo := false)
  }

  /** The copy `duplicateElement` makes: a new id and the layout moved one
      cell right and one cell down. */
  function Duplicate(e: Element, newId: string): Element {
    e.(id := newId, layout := e.layout.(x := e.layout.x + 1, y := e.layout.y + 1))
  }

  /** The new element `addElement` creates. */
  function NewElement(kind: string, x: int, y: int, newId: string): Element {
    var (w, h) := DefaultSize(kind);
    Element(newId, kind, Layout(x, y, w, h), DefaultProperties(kind))
  }

  /** The state after one command. */
  function Step(s: State, c: Command): State {
    match c
    case AddElement(kind, x, y, newId) =>
      var es := s.elements + [NewElement(kind, x, y, newId)];
      Record(s).(elements := es, present := es, selectedElementId := Some(newId))
    case UpdateElementLayout(id, partial) =>
      (match FindIndex(s.elements, id)
       case None => Record(s)
       case Some(i) =>
         var e := s.elements[i];
         var es := s.elements[i := e.(layout := MergeLayout(e.layout, partial))];
         Record(s).(elements := es, present := es))
    case UpdateElementProperties(id, props) =>
      (match FindIndex(s.elements, id)
       case None => Record(s)
       case Some(i) =>
         var e := s.elements[i];
         var es := s.elements[i := e.(properties := e.properties + props)];
         Record(s).(elements := es, present := es))
    case RemoveElement(id) =>
      var es := RemoveById(s.elements, id);
      Record(s).(elements := es, present := es,
                 selectedElementId := if s.selectedElementId == Some(id) then None else s.selectedElementId)
    case DuplicateElement(id, newId) =>
      (match FindIndex(s.elements, id)
       case None => s
       case Some(i) =>
         var es := s.elements + [Duplicate(s.elements[i], newId)];
         Record(s).(elements := es, present := es, selectedElementId := Some(newId)))
    case SetSelectedElementId(selection) =>
      s.(selectedElementId := selection)
    case ImportLayout(data) =>
      (match data
       case None => s
       case Some(es) => Record(s).(elements := es, present := es, selectedElementId := None))
    case Undo =>
      if |s.past| == 0 then s
      else
        var previous := s.past[|s.past| - 1];
        var past := s.past[..|s.past| - 1];
        s.(future := [s.present] + s.future, past := past, elements := previous, present := previous,
           canUndo := |past| > 0, canRedo := true, selectedElementId := None)
    case Redo =>
      if |s.future| == 0 then s
      else
        var next := s.future[0];
        var future := s.future[1..];
        s.(past := s.past + [s.present], future := future, elements := next, present := next,
           canUndo := true, canRedo := |future| > 0, selectedElementId := None)
  }

  /** The state after a sequence of commands, first to last. */
  function Run(s: State, cmds: seq<Command>): State
    decreases |cmds|
  {
    if cmds == [] then s else Run(Step(s, cmds[0]), cmds[1..])
  }

  /** `exportLayout()`: the `elements` of the exported `{elements}` object. */
  function ExportLayout(s: State): Snapshot {
    s.elements
  }

  /** The store object. Its fields are the store's state; each command is a
      method that updates them in place. */
  class BuilderStore {
    var elements: Snapshot
    var selectedElementId: Option<string>
    var past: seq<Snapshot>
    var present: Snapshot
    var future: seq<Snapshot>
    var canUndo: bool
    var canRedo: bool

    /** The fields as one value. */
    function View(): State
      reads this
    {
      State(elements, selectedElementId, past, present, future, canUndo, canRedo)
    }

    ghost predicate Valid()
      reads this
    {
      Consistent(View())
    }

    constructor ()
      ensures Valid()
      ensures View() == Initial()
    {
      elements := [];
      selectedElementId := None;
      past, present, future := [], [], [];
      canUndo, canRedo := false, false;
    }

    /** Pushes the present onto the past and drops the redo branch. */
    method RecordHistory()
      modifies this
      ensures View() == Record(old(View()))
    {
      past := past + [present];
      future := [];
      canUndo := true;
      canRedo := false;
    }

    method AddElement(kind: string, x: int, y: int, newId: string)
      requires Valid()
      modifies this
      ensures Valid()
      ensures View() == Step(old(View()), Command.AddElement(kind, x, y, newId))
    {
      RecordHistory();
      var (w, h) := DefaultSize(kind);
      var newElement := Element(newId, kind, Layout(x, y, w, h), DefaultProperties(kind));
      elements := elements + [newElement];
      present := elements;
      selectedElementId := Some(newId);
    }

    method UpdateElementLayout(id: string, layout: PartialLayout)
      requires Valid()
      modifies this
      ensures Valid()
      ensures View() == Step(old(View()), Command.UpdateElementLayout(id, layout))
    {
      RecordHistory();
      var index := FindIndex(elements, id);
      if index.Some? {
        var e := elements[index.value];
        elements := elements[index.value := e.(layout := MergeLayout(e.layout, layout))];
        present := elements;
      }
    }

    method UpdateElementProperties(id: string, properties: map<string, Value>)
      requires Valid()
      modifies this
      ensures Valid()
      ensures View() == Step(old(View()), Command.UpdateElementProperties(id, properties))
    {
      RecordHistory();
      var index := FindIndex(elements, id);
      if index.Some? {
        var e := elements[index.value];
        elements := elements[index.value := e.(properties := e.properties + properties)];
        present := elements;
      }
    }

    method RemoveElement(id: string)
      requires Valid()
      modifies this
      ensures Valid()
      ensures View() == Step(old(View()), Command.RemoveElement(id))
    {
      RecordHistory();
      elements := RemoveById(elements, id);
      present := elements;
      if selectedElementId == Some(id) {
        selectedElementId := None;
      }
    }

    method DuplicateElement(id: string, newId: string)
      requires Valid()
      modifies this
      ensures Valid()
      ensures View() == Step(old(View()), Command.DuplicateElement(id, newId))
    {
      var index := FindIndex(elements, id);
      if index.None? {
        return;
      }
      var original := elements[index.value];
      RecordHistory();
      var copy := Duplicate(original, newId);
      elements := elements + [copy];
      present := elements;
      selectedElementId := Some(newId);
    }

    method SetSelectedElementId(selection: Option<string>)
      requires Valid()
      modifies this
      ensures Valid()
      ensures View() == Step(old(View()), Command.SetSelectedElementId(selection))
    {
      selectedElementId := selection;
    }

    /** Reads the current elements; changes nothing. */
    method ExportLayout() returns (data: Snapshot)
      ensures data == elements
    {
      data := elements;
    }

    method ImportLayout(data: Option<Snapshot>)
      requires Valid()
      modifies this
      ensures Valid()
      ensures View() == Step(old(View()), Command.ImportLayout(data))
    {
      if data.Some? {
        RecordHistory();
        elements := data.value;
        present := elements;
        selectedElementId := None;
      }
    }

    method Undo()
      requires Valid()
      modifies this
      ensures Valid()
      ensures View() == Step(old(View()), Command.Undo)
    {
      if |past| == 0 {
        return;
      }
      future := [present] + future;
      var previous := past[|past| - 1];
      past := past[..|past| - 1];
      elements := previous;
      present := previous;
      canUndo := |past| > 0;
      canRedo := true;
      selectedElementId := None;
    }

    method Redo()
      requires Valid()
      modifies this
      ensures Valid()
      ensures View() == Step(old(View()), Command.Redo)
    {
      if |future| == 0 {
        return;
      }
      past := past + [present];
      var next := future[0];
      future := future[1..];
      elements := next;
      present := next;
      canUndo := true;
      canRedo := |future| > 0;
      selectedElementId := None;
    }
  }
}
