/** The template gallery: the built-in page templates, the search over them,
    and the confirmation that hands the chosen template's elements to the
    store's `importLayout`. */
module TemplateGallery {
  import opened Wrappers
  import opened Text
  import opened Store

  /** A page template; the thumbnail image is not modelled. */
  datatype Template = Template(id: string, name: string, category: string, elements: Snapshot)

  /** The four built-in templates, element by element. */
  const Templates: seq<Template> := [
    Template("landing-page", "Landing Page", "Marketing", [
      Element("header-1", "heading1", Layout(0, 0, 24, 2),
        map["text" := Str("Welcome to Our Website"), "textAlign" := Str("center"), "color" := Str("#4c1d95")]),
      Element("text-1", "text", Layout(4, 3, 16, 2),
        map["text" := Str("We provide the best services for your needs. Check out our offerings below."),
            "textAlign" := Str("center"), "color" := Str("#6b7280")]),
      Element("button-1", "button", Layout(9, 6, 6, 2),
        map["text" := Str("Get Started"), "url" := Str("#"), "backgroundColor" := Str("#8b5cf6")])
    ]),
    Template("about-us", "About Us", "Company", [
      Element("header-2", "heading1", Layout(0, 0, 24, 2),
        map["text" := Str("About Our Company"), "textAlign" := Str("center"), "color" := Str("#4c1d95")]),
      Element("text-2", "text", Layout(2, 3, 20, 4),
        map["text" := Str("Founded in 2020, our company has been dedicated to providing exceptional services to our clients. We believe in quality, innovation, and customer satisfaction."),
            "color" := Str("#6b7280")]),
      Element("image-1", "image", Layout(6, 8, 12, 8),
        map["src" := Str("https://th.bing.com/th/id/OIP.5wXtBlXPnCKvSVMl0Ydj3gHaD4?w=328&h=180&c=7&pcl=292827&r=0&o=5&dpr=1.3&pid=1.7"),
            "alt" := Str("Our Team")])
    ]),
    Template("contact-form", "Contact Form", "Forms", [
      Element("header-3", "heading1", Layout(0, 0, 24, 2),
        map["text" := Str("Contact Us"), "textAlign" := Str("center"), "color" := Str("#4c1d95")]),
      Element("text-3", "text", Layout(4, 3, 16, 2),
        map["text" := Str("Have questions? We'd love to hear from you. Fill out the form below and we'll get back to you as soon as possible."),
            "textAlign" := Str("center"), "color" := Str("#6b7280")]),
      Element("form-1", "form", Layout(6, 6, 12, 10),
        map["formTitle" := Str("Send us a message"), "submitText" := Str("Submit")])
    ]),
    Template("portfolio", "Portfolio", "Personal", [
      Element("header-4", "heading1", Layout(0, 0, 24, 2),
        map["text" := Str("My Portfolio"), "textAlign" := Str("center"), "color" := Str("#4c1d95")]),
      Element("text-4", "text", Layout(4, 3, 16, 2),
        map["text" := Str("Check out some of my recent projects below."),
            "textAlign" := Str("center"), "color" := Str("#6b7280")]),
      Element("columns-1", "columns", Layout(2, 6, 20, 8),
        map["backgroundColor" := Str("#f9fafb"), "borderRadius" := Str("8px")])
    ])
  ]

  /** A template is listed when its lower-cased name or category includes
      the lower-cased search term. */
  predicate MatchesSearch(t: Template, searchTerm: string) {
    Contains(ToLower(t.name), ToLower(searchTerm)) || Contains(ToLower(t.category), ToLower(searchTerm))
  }

  /** `filteredTemplates`: the matching templates, in order. */
  function FilterTemplates(ts: seq<Template>, searchTerm: string): (r: seq<Template>)
    ensures |r| <= |ts|
    ensures forall t :: t in r <==> t in ts && MatchesSearch(t, searchTerm)
  {
    if ts == [] then []
    else (if MatchesSearch(ts[0], searchTerm) then [ts[0]] else []) + FilterTemplates(ts[1..], searchTerm)
  }

  /** `templates.find(t => t.id === id)`: the first template with that id. */
  function FindTemplate(ts: seq<Template>, id: string): (r: Option<Template>)
    ensures r.Some? ==> exists i :: IsFirstTemplate(ts, id, i) && ts[i] == r.value
    ensures r.None? <==> forall t :: t in ts ==> t.id != id
  {
    if ts == [] then None
    else if ts[0].id == id then
      assert IsFirstTemplate(ts, id, 0);
      Some(ts[0])
    else
      var r := FindTemplate(ts[1..], id);
      assert r.Some? ==> exists i :: IsFirstTemplate(ts, id, i) && ts[i] == r.value by {
        if r.Some? {
          var i :| IsFirstTemplate(ts[1..], id, i) && ts[1..][i] == r.value;
          assert IsFirstTemplate(ts, id, i + 1);
        }
      }
      r
  }

  /** `i` is the index `find` stops at when looking for `id`. */
  predicate IsFirstTemplate(ts: seq<Template>, id: string, i: int) {
    && 0 <= i < |ts|
    && ts[i].id == id
    && forall j :: 0 <= j < i ==> ts[j].id != id
  }

  /** What `handleConfirmSelection` passes to `onSelect`: nothing when no
      template is selected (or the selection is the empty string) or when
      no template has the selected id; otherwise that template's elements. */
  function ConfirmSelection(ts: seq<Template>, selected: Option<string>): Option<Snapshot> {
    if selected.None? || selected.value == "" then None
    else
      match FindTemplate(ts, selected.value)
      case None => None
      case Some(t) => Some(t.elements)
  }

  /** The gallery's state: the selected template id and the search term. */
  class Gallery {
    var selectedTemplate: Option<string>
    var searchTerm: string

    constructor()
      ensures selectedTemplate == None && searchTerm == ""
    {
      selectedTemplate := None;
      searchTerm := "";
    }

    /** The templates the gallery lists. */
    function FilteredTemplates(): seq<Template>
      reads this
    {
      FilterTemplates(Templates, searchTerm)
    }

    /** The search box's `onChange`: stores the raw input. */
    method SetSearchTerm(value: string)
      modifies this
      ensures searchTerm == value && selectedTemplate == old(selectedTemplate)
    {
      searchTerm := value;
    }

    /** `handleSelectTemplate`. */
    method HandleSelectTemplate(templateId: string)
      modifies this
      ensures selectedTemplate == Some(templateId) && searchTerm == old(searchTerm)
    {
      selectedTemplate := Some(templateId);
    }

    /** `handleConfirmSelection`: returns what is handed to `onSelect`, or
        `None` when `onSelect` is not called. */
    method HandleConfirmSelection() returns (chosen: Option<Snapshot>)
      ensures chosen == ConfirmSelection(Templates, selectedTemplate)
    {
      chosen := None;
      if selectedTemplate.Some? && selectedTemplate.value != "" {
        var template := FindTemplate(Templates, selectedTemplate.value);
        if template.Some? {
          chosen := Some(template.value.elements);
        }
      }
    }
  }

  // ---------------------------------------------------------------------
  // Properties

  /** Filtering keeps the gallery's order: it distributes over
      concatenation. */
  lemma {:induction false} FilterTemplatesAppend(a: seq<Template>, b: seq<Template>, searchTerm: string)
    ensures FilterTemplates(a + b, searchTerm) == FilterTemplates(a, searchTerm) + FilterTemplates(b, searchTerm)
  {
    if a != [] {
      assert (a + b)[0] == a[0];
      assert (a + b)[1..] == a[1..] + b;
      FilterTemplatesAppend(a[1..], b, searchTerm);
    } else {
      assert a + b == b;
    }
  }

  /** An empty search lists every template. */
  lemma {:induction false} EmptySearchListsAll(ts: seq<Template>)
    ensures FilterTemplates(ts, "") == ts
  {
    if ts != [] {
      ContainsEmpty(ToLower(ts[0].name));
      assert ToLower("") == "";
      EmptySearchListsAll(ts[1..]);
      assert ts == [ts[0]] + ts[1..];
    }
  }

  /** The search ignores the case of what is typed: two terms that differ
      only in the case of their letters list the same templates. */
  lemma {:induction false} SearchIgnoresCase(ts: seq<Template>, a: string, b: string)
    requires ToLower(a) == ToLower(b)
    ensures FilterTemplates(ts, a) == FilterTemplates(ts, b)
  {
    if ts != [] {
      SearchIgnoresCase(ts[1..], a, b);
    }
  }

  /** Nothing is handed on without a selection. */
  lemma NoSelectionConfirmsNothing(ts: seq<Template>)
    ensures ConfirmSelection(ts, None) == None
    ensures ConfirmSelection(ts, Some("")) == None
  {
  }

  /** A selected id that no template has hands nothing on; one that a
      template has hands on that template's elements, provided template ids
      are distinct. */
  lemma ConfirmSelectionCases(ts: seq<Template>, id: string)
    requires id != ""
    requires forall i, j :: 0 <= i < j < |ts| ==> ts[i].id != ts[j].id
    ensures (forall t :: t in ts ==> t.id != id) ==> ConfirmSelection(ts, Some(id)) == None
    ensures forall t :: t in ts && t.id == id ==> ConfirmSelection(ts, Some(id)) == Some(t.elements)
  {
    var r := FindTemplate(ts, id);
    if r.Some? {
      forall t | t in ts && t.id == id ensures t == r.value {
        var i :| 0 <= i < |ts| && ts[i] == t;
        var j :| 0 <= j < |ts| && ts[j] == r.value;
        assert ts[i].id == ts[j].id;
      }
    }
  }

  /** Applying a confirmed template through `importLayout` puts exactly its
      elements on the canvas, clears the selection, and an undo gives the
      previous elements back. */
  lemma ApplyTemplate(s: State, ts: seq<Template>, id: string, es: Snapshot)
    requires Consistent(s)
    requires ConfirmSelection(ts, Some(id)) == Some(es)
    ensures var r := Step(s, Command.ImportLayout(Some(es)));
      && Consistent(r)
      && r.elements == es
      && r.selectedElementId == None
      && Step(r, Command.Undo).elements == s.elements
  {
  }

  /** The built-in templates have distinct ids, and within each template the
      element ids are distinct and every element type is one the store
      knows. */
  lemma TemplatesWellFormed()
    ensures forall i, j :: 0 <= i < j < |Templates| ==> Templates[i].id != Templates[j].id
    ensures forall i :: 0 <= i < |Templates| ==> DistinctIds(Templates[i].elements)
    ensures forall i, k :: 0 <= i < |Templates| && 0 <= k < |Templates[i].elements| ==>
              Templates[i].elements[k].kind in ElementTypes
  {
  }
}
