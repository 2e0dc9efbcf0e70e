/** The pure helpers of the element renderer: the custom-CSS parser, the
    video-URL rewriter and the splitting of a list element's items. */
module ElementRenderer {
  import opened Wrappers
  import opened Text

  // ---------------------------------------------------------------------
  // Custom CSS

  /** One `property: value` pair of a custom-CSS string, with the property
      already in camelCase. */
  datatype Declaration = Declaration(property: string, value: string)

  /** `property.replace(/-([a-z])/g, letter => letter.toUpperCase())`: each
      hyphen followed by a lower-case ASCII letter becomes that letter in
      upper case; any other hyphen stays. */
  function CamelCase(s: string): (r: string)
    ensures |r| <= |s|
    ensures s != [] && !IsLowerAsciiLetter(s[0]) ==> r != [] && !IsLowerAsciiLetter(r[0])
    decreases |s|
  {
    if s == [] then []
    else if |s| >= 2 && s[0] == '-' && IsLowerAsciiLetter(s[1]) then [UpperChar(s[1])] + CamelCase(s[2..])
    else [s[0]] + CamelCase(s[1..])
  }

  /** `s` holds a hyphen directly followed by a lower-case ASCII letter. */
  predicate HasKebabAt(s: string, i: int) {
    0 <= i < |s| - 1 && s[i] == '-' && IsLowerAsciiLetter(s[i + 1])
  }

  /** One entry of `cssString.split(";")`: split on `:`, trim the first two
      parts, and keep the pair only when both are non-empty. Anything after
      a second `:` is ignored. */
  function ParseDeclaration(d: string): Option<Declaration> {
    var parts := Split(d, ':');
    var property := Trim(parts[0]);
    var value := if |parts| >= 2 then Trim(parts[1]) else "";
    if property != "" && value != "" then Some(Declaration(CamelCase(property), value)) else None
  }

  /** `xs.map(f)`. */
  function Map<A, B>(f: A -> B, xs: seq<A>): (r: seq<B>)
    ensures |r| == |xs|
  {
    if xs == [] then [] else [f(xs[0])] + Map(f, xs[1..])
  }

  lemma {:induction false} MapAt<A, B>(f: A -> B, xs: seq<A>, i: int)
    requires 0 <= i < |xs|
    ensures Map(f, xs)[i] == f(xs[i])
  {
    if i > 0 {
      MapAt(f, xs[1..], i - 1);
    }
  }

  /** `ParseDeclaration` applied to each piece. */
  function ParseAll(ds: seq<string>): (r: seq<Option<Declaration>>)
    ensures |r| == |ds|
  {
    Map(ParseDeclaration, ds)
  }

  /** The `i`-th parsed declaration is kept and sets key `k`. */
  predicate DeclaresAt(ps: seq<Option<Declaration>>, i: int, k: string) {
    0 <= i < |ps| && ps[i].Some? && ps[i].value.property == k
  }

  /** The parsed pieces of a custom-CSS string, in order. */
  function Declarations(css: string): seq<Option<Declaration>> {
    ParseAll(Split(css, ';'))
  }

  /** One of the first `n` declarations sets `k`. */
  predicate DeclaredBefore(ps: seq<Option<Declaration>>, n: int, k: string) {
    exists i :: 0 <= i < n && DeclaresAt(ps, i, k)
  }

  /** Some declaration sets `k`. */
  predicate Declares(ps: seq<Option<Declaration>>, k: string) {
    DeclaredBefore(ps, |ps|, k)
  }

  /** Among the first `n` declarations, the `i`-th is the last to set `k`. */
  predicate LastBefore(ps: seq<Option<Declaration>>, n: int, i: int, k: string) {
    DeclaresAt(ps, i, k) && i < n && forall j :: i < j < n ==> !DeclaresAt(ps, j, k)
  }

  /** The `i`-th declaration sets `k` and no later one does. */
  predicate LastDeclaresAt(ps: seq<Option<Declaration>>, i: int, k: string) {
    LastBefore(ps, |ps|, i, k)
  }

  /** `result` is what the first `n` declarations write: exactly their keys,
      each with the value of the last declaration that sets it. */
  ghost predicate FoldedUpTo(ps: seq<Option<Declaration>>, n: int, result: map<string, string>) {
    && (forall k :: k in result <==> DeclaredBefore(ps, n, k))
    && (forall k, i :: LastBefore(ps, n, i, k) ==> k in result && result[k] == ps[i].value.value)
  }

  /** The object that writing the kept declarations in order builds: a later
      declaration of a key overwrites an earlier one. */
  function Fold(ps: seq<Option<Declaration>>): map<string, string>
    decreases |ps|
  {
    if ps == [] then map[]
    else
      var m := Fold(ps[..|ps| - 1]);
      match ps[|ps| - 1]
      case None => m
      case Some(d) => m[d.property := d.value]
  }

  /** `parseCustomCss`: each kept declaration of `css.split(";")` writes its
      value under its camelCase property, in order; `FoldCharacterised` says
      what the resulting object holds. */
  method ParseCustomCss(css: string) returns (result: map<string, string>)
    ensures css == "" ==> result == map[]
    ensures result == Fold(Declarations(css))
  {
    var ds := Split(css, ';');
    ghost var ps := ParseAll(ds);
    if css == "" {
      EmptyCssDeclaresNothing();
      return map[];
    }
    result := map[];
    for n := 0 to |ds|
      invariant result == Fold(ps[..n])
    {
      var d := ParseEntry(ds, n);
      if d.Some? {
        result := result[d.value.property := d.value.value];
      }
      assert ps[..n + 1][..n] == ps[..n];
    }
    assert ps[..|ds|] == ps;
  }

  /** The body of the `forEach` callback that parses the `n`-th piece. */
  method ParseEntry(ds: seq<string>, n: nat) returns (d: Option<Declaration>)
    requires n < |ds|
    ensures d == ParseAll(ds)[n]
  {
    d := ParseDeclaration(ds[n]);
    MapAt(ParseDeclaration, ds, n);
  }

  /** The parsed object holds exactly the declared keys, each with the value
      of its last declaration. */
  lemma FoldCharacterised(ps: seq<Option<Declaration>>)
    ensures forall k :: k in Fold(ps) <==> Declares(ps, k)
    ensures forall k, i :: LastDeclaresAt(ps, i, k) ==> k in Fold(ps) && Fold(ps)[k] == ps[i].value.value
  {
    FoldPrefix(ps, |ps|);
    assert ps[..|ps|] == ps;
  }

  /** The empty string splits into one empty declaration, which is dropped. */
  lemma EmptyCssDeclaresNothing()
    ensures Declarations("") == [None]
    ensures Fold(Declarations("")) == map[]
    ensures forall k :: !Declares(Declarations(""), k)
  {
    assert Split("", ':') == [""];
    assert Trim("") == "";
    assert ParseDeclaration("") == None;
    MapAt(ParseDeclaration, [""], 0);
    assert Declarations("")[..0] == [];
  }

  /** Folding one more declaration into the map keeps `FoldedUpTo`. */
  lemma FoldStep(ps: seq<Option<Declaration>>, n: int, before: map<string, string>, after: map<string, string>)
    requires 0 <= n < |ps|
    requires FoldedUpTo(ps, n, before)
    requires after == if ps[n].Some? then before[ps[n].value.property := ps[n].value.value] else before
    ensures FoldedUpTo(ps, n + 1, after)
  {
    forall k ensures k in after <==> DeclaredBefore(ps, n + 1, k) {
      DeclaredExtend(ps, n, k);
    }
    forall k, i | LastBefore(ps, n + 1, i, k) ensures k in after && after[k] == ps[i].value.value {
      LastBeforeExtend(ps, n, i, k);
    }
  }

  /** `Fold` of the first `n` declarations holds exactly their keys, each with
      the value of the last declaration that sets it. */
  lemma {:induction false} FoldPrefix(ps: seq<Option<Declaration>>, n: int)
    requires 0 <= n <= |ps|
    ensures FoldedUpTo(ps, n, Fold(ps[..n]))
  {
    if n > 0 {
      FoldPrefix(ps, n - 1);
      assert ps[..n][..n - 1] == ps[..n - 1];
      FoldStep(ps, n - 1, Fold(ps[..n - 1]), Fold(ps[..n]));
    }
  }

  lemma DeclaredExtend(ps: seq<Option<Declaration>>, n: int, k: string)
    requires 0 <= n < |ps|
    ensures DeclaredBefore(ps, n + 1, k) <==> DeclaredBefore(ps, n, k) || DeclaresAt(ps, n, k)
  {
    if DeclaredBefore(ps, n + 1, k) && !DeclaresAt(ps, n, k) {
      var i :| 0 <= i < n + 1 && DeclaresAt(ps, i, k);
      assert i < n;
    }
  }

  lemma LastBeforeExtend(ps: seq<Option<Declaration>>, n: int, i: int, k: string)
    requires 0 <= n < |ps|
    ensures LastBefore(ps, n + 1, i, k) <==>
            (i == n && DeclaresAt(ps, n, k)) || (LastBefore(ps, n, i, k) && !DeclaresAt(ps, n, k))
  {
  }

  /** No hyphen followed by a lower-case letter survives camel-casing. */
  lemma {:induction false} CamelCaseLeavesNoKebab(s: string)
    ensures forall i :: !HasKebabAt(CamelCase(s), i)
    decreases |s|
  {
    if s == [] {
    } else if |s| >= 2 && s[0] == '-' && IsLowerAsciiLetter(s[1]) {
      CamelCaseLeavesNoKebab(s[2..]);
      var r := CamelCase(s);
      var tail := CamelCase(s[2..]);
      forall i | 0 <= i < |r| - 1 ensures !HasKebabAt(r, i) {
        if i > 0 {
          assert r[i] == tail[i - 1] && r[i + 1] == tail[i];
          assert !HasKebabAt(tail, i - 1);
        }
      }
    } else {
      CamelCaseLeavesNoKebab(s[1..]);
      var r := CamelCase(s);
      var tail := CamelCase(s[1..]);
      forall i | 0 <= i < |r| - 1 ensures !HasKebabAt(r, i) {
        if i > 0 {
          assert r[i] == tail[i - 1] && r[i + 1] == tail[i];
          assert !HasKebabAt(tail, i - 1);
        } else if s[0] == '-' {
          assert !IsLowerAsciiLetter(s[1]);
        }
      }
    }
  }

  /** A name without a hyphen-letter pair is left as it is. */
  lemma {:induction false} CamelCaseKeepsPlainNames(s: string)
    requires forall i :: !HasKebabAt(s, i)
    ensures CamelCase(s) == s
    decreases |s|
  {
    if s != [] {
      assert !HasKebabAt(s, 0);
      forall i ensures !HasKebabAt(s[1..], i) {
        assert !HasKebabAt(s, i + 1);
      }
      CamelCaseKeepsPlainNames(s[1..]);
      assert s == [s[0]] + s[1..];
    }
  }

  /** Camel-casing is idempotent. */
  lemma CamelCaseIdempotent(s: string)
    ensures CamelCase(CamelCase(s)) == CamelCase(s)
  {
    CamelCaseLeavesNoKebab(s);
    CamelCaseKeepsPlainNames(CamelCase(s));
  }

  /** A kept declaration has a non-empty value without a colon or edge
      whitespace, and a property name without a colon. */
  lemma DeclarationShape(d: string)
    requires ParseDeclaration(d).Some?
    ensures var decl := ParseDeclaration(d).value;
      && decl.value != "" && decl.property != ""
      && ':' !in decl.value && ':' !in decl.property
      && !IsJsWhitespace(decl.value[0]) && !IsJsWhitespace(decl.value[|decl.value| - 1])
  {
    var parts := Split(d, ':');
    var value := Trim(parts[1]);
    assert ':' !in parts[1];
    assert forall k :: 0 <= k < |value| ==> value[k] in parts[1] by {
      TrimIsInfix(parts[1]);
    }
    var name := Trim(parts[0]);
    assert ':' !in name by {
      TrimIsInfix(parts[0]);
      assert forall k :: 0 <= k < |name| ==> name[k] in parts[0];
    }
    CamelCaseChars(name);
  }

  /** A hyphen and the character after it: a lower-case letter becomes that
      same letter in upper case, and anything else is kept with the hyphen. */
  lemma CamelCasePair(c: char)
    ensures IsLowerAsciiLetter(c) ==> CamelCase(['-', c]) == [(c as int - 32) as char]
    ensures !IsLowerAsciiLetter(c) ==> CamelCase(['-', c]) == ['-', c]
  {
    assert ['-', c][2..] == [];
    assert ['-', c][1..] == [c];
    assert [c][1..] == [];
  }

  /** The replacement works piece by piece: a string cut anywhere except
      just after a hyphen is camel-cased by camel-casing both pieces. With
      `CamelCaseKeepsPlainNames` (single characters and plain names),
      `CamelCasePair` and `CamelCaseKeepsHyphen` this fixes the result of
      every input. */
  lemma {:induction false} CamelCaseAppend(a: string, b: string)
    requires a == [] || a[|a| - 1] != '-'
    ensures CamelCase(a + b) == CamelCase(a) + CamelCase(b)
    decreases |a|
  {
    if a == [] {
      assert a + b == b;
    } else {
      var pair := |a| >= 2 && a[0] == '-' && IsLowerAsciiLetter(a[1]);
      var head := if pair then [UpperChar(a[1])] else [a[0]];
      var tail := if pair then a[2..] else a[1..];
      if pair {
        UnfoldPair(a, b);
      } else {
        UnfoldSingle(a, b);
      }
      assert tail == [] || tail[|tail| - 1] == a[|a| - 1];
      CamelCaseAppend(tail, b);
      var t, u := CamelCase(tail), CamelCase(b);
      assert CamelCase(a + b) == head + (t + u);
      assert CamelCase(a) == head + t;
      AppendAssociates(head, t, u);
    }
  }

  /** Concatenation associates. */
  lemma AppendAssociates(x: string, y: string, z: string)
    ensures x + (y + z) == (x + y) + z
  {
  }

  /** A hyphen that is not followed by a lower-case letter is kept, and the
      rest is converted on its own, even when the rest starts with another
      hyphen: `--a` becomes `-A`. */
  lemma CamelCaseKeepsHyphen(s: string)
    requires s != [] && !IsLowerAsciiLetter(s[0])
    ensures CamelCase(['-'] + s) == ['-'] + CamelCase(s)
  {
    var t := ['-'] + s;
    assert t[1] == s[0];
    assert t[1..] == s;
  }

  /** For instance the custom property `--a` becomes `-A`. */
  lemma CustomPropertyExample(s: string)
    requires s == "--a"
    ensures CamelCase(s) == "-A"
  {
    assert s == ['-'] + ['-', 'a'];
    CamelCaseKeepsHyphen(['-', 'a']);
    CamelCasePair('a');
  }

  /** A leading kebab pair is replaced in `a` and in `a + b` alike. */
  lemma UnfoldPair(a: string, b: string)
    requires |a| >= 2 && a[0] == '-' && IsLowerAsciiLetter(a[1])
    ensures CamelCase(a) == [UpperChar(a[1])] + CamelCase(a[2..])
    ensures CamelCase(a + b) == [UpperChar(a[1])] + CamelCase(a[2..] + b)
  {
    var ab := a + b;
    assert ab[0] == '-' && ab[1] == a[1];
    assert ab[2..] == a[2..] + b;
  }

  /** A leading character that starts no kebab pair in `a`, and is not a
      hyphen ending `a`, is kept in `a` and in `a + b` alike. */
  lemma UnfoldSingle(a: string, b: string)
    requires a != [] && !(|a| >= 2 && a[0] == '-' && IsLowerAsciiLetter(a[1]))
    requires |a| == 1 ==> a[0] != '-'
    ensures CamelCase(a) == [a[0]] + CamelCase(a[1..])
    ensures CamelCase(a + b) == [a[0]] + CamelCase(a[1..] + b)
  {
    var ab := a + b;
    assert ab[0] == a[0];
    assert ab[1..] == a[1..] + b;
    assert |a| >= 2 ==> ab[1] == a[1];
  }

  /** For instance `font-size` becomes `fontSize`. */
  lemma CamelCaseExample(s: string)
    requires s == "font-size"
    ensures CamelCase(s) == "fontSize"
  {
    var font, pair, ize := s[..4], s[4..6], s[6..];
    assert s == font + (pair + ize);
    assert pair == ['-', 's'];
    PlainWord(font);
    PlainWord(ize);
    CamelCasePair('s');
    CamelCaseAppend(pair, ize);
    CamelCaseAppend(font, pair + ize);
    assert font + (['S'] + ize) == "fontSize";
  }

  /** A word of lower-case letters is left as it is. */
  lemma PlainWord(s: string)
    requires forall i :: 0 <= i < |s| ==> IsLowerAsciiLetter(s[i])
    ensures CamelCase(s) == s
  {
    CamelCaseKeepsPlainNames(s);
  }

  /** Camel-casing brings in no character but upper-case ASCII letters. */
  lemma {:induction false} CamelCaseChars(s: string)
    ensures forall c :: c in CamelCase(s) ==> c in s || 'A' <= c <= 'Z'
    decreases |s|
  {
    if s != [] {
      if |s| >= 2 && s[0] == '-' && IsLowerAsciiLetter(s[1]) {
        CamelCaseChars(s[2..]);
        assert forall c :: c in s[2..] ==> c in s;
      } else {
        CamelCaseChars(s[1..]);
        assert forall c :: c in s[1..] ==> c in s;
      }
    }
  }

  lemma TrimIsInfix(s: string)
    ensures forall k :: 0 <= k < |Trim(s)| ==> Trim(s)[k] in s
  {
    var t := TrimStart(s);
    forall k | 0 <= k < |Trim(s)| ensures Trim(s)[k] in s {
      assert Trim(s)[k] == t[k];
      assert t[k] == s[|s| - |t| + k];
    }
  }

  /** A declaration without a colon is dropped. */
  lemma DeclarationNeedsColon(d: string)
    requires ':' !in d
    ensures ParseDeclaration(d) == None
  {
    SplitOfSeparatorFree(d, ':');
  }

  /** A piece with exactly one colon is kept exactly when both trimmed sides
      are non-empty, and then declares the camel-cased trimmed property with
      the trimmed value. */
  lemma DeclarationOf(p: string, v: string)
    requires ':' !in p && ':' !in v
    ensures ParseDeclaration(p + [':'] + v)
         == if Trim(p) != "" && Trim(v) != "" then Some(Declaration(CamelCase(Trim(p)), Trim(v))) else None
  {
    SplitJoin([p, v], ':');
    assert Join([p, v], ':') == p + [':'] + v by { assert [p, v][1..] == [v]; }
  }

  /** For instance ` font-size : 12px ` declares `fontSize` as `12px`. */
  lemma DeclarationExample(d: string)
    requires d == " font-size : 12px "
    ensures ParseDeclaration(d) == Some(Declaration("fontSize", "12px"))
  {
    var name, value := "font-size", "12px";
    FontSizePieces(d, name, value);
    PaddedDeclaration(name, value);
    CamelCaseExample(name);
  }

  /** How ` font-size : 12px ` is put together. */
  lemma FontSizePieces(d: string, name: string, value: string)
    requires d == " font-size : 12px " && name == "font-size" && value == "12px"
    ensures d == [' '] + name + [' '] + [':'] + ([' '] + value + [' '])
    ensures name != [] && !IsJsWhitespace(name[0]) && !IsJsWhitespace(name[|name| - 1]) && ':' !in name
    ensures value != [] && !IsJsWhitespace(value[0]) && !IsJsWhitespace(value[|value| - 1]) && ':' !in value
  {
  }

  /** A property and a value, each padded with one space, parse to the
      camel-cased property and the value. */
  lemma PaddedDeclaration(name: string, value: string)
    requires name != [] && !IsJsWhitespace(name[0]) && !IsJsWhitespace(name[|name| - 1]) && ':' !in name
    requires value != [] && !IsJsWhitespace(value[0]) && !IsJsWhitespace(value[|value| - 1]) && ':' !in value
    ensures ParseDeclaration([' '] + name + [' '] + [':'] + ([' '] + value + [' ']))
         == Some(Declaration(CamelCase(name), value))
  {
    var p, v := [' '] + name + [' '], [' '] + value + [' '];
    ColonFreePadded(name);
    ColonFreePadded(value);
    TrimPadded(name);
    TrimPadded(value);
    DeclarationOf(p, v);
  }

  /** Padding with spaces brings in no colon. */
  lemma ColonFreePadded(w: string)
    requires ':' !in w
    ensures ':' !in [' '] + w + [' ']
  {
    var p := [' '] + w + [' '];
    forall k | 0 <= k < |p| ensures p[k] != ':' {
      if 0 < k < |p| - 1 {
        assert p[k] == w[k - 1];
      }
    }
  }

  /** Trimming a word padded with one space on each side gives the word. */
  lemma TrimPadded(w: string)
    requires w != [] && !IsJsWhitespace(w[0]) && !IsJsWhitespace(w[|w| - 1])
    ensures Trim([' '] + w + [' ']) == w
  {
    var s := [' '] + w + [' '];
    assert s[1..] == w + [' '];
    TrimStartKeeps(w + [' ']);
    assert (w + [' '])[..|w|] == w;
  }

  /** Text after a second colon is dropped: `p:v:rest` parses as `p:v`,
      whatever `rest` holds, further colons included. */
  lemma DeclarationIgnoresSecondColon(p: string, v: string, rest: string)
    requires ':' !in p && ':' !in v
    ensures ParseDeclaration(p + [':'] + v + [':'] + rest) == ParseDeclaration(p + [':'] + v)
  {
    var long, short := p + [':'] + v + [':'] + rest, p + [':'] + v;
    assert long == p + [':'] + (v + [':'] + rest);
    var tail := Split(rest, ':');
    SplitAfterFirst(v, rest, ':');
    SplitAfterFirst(p, v + [':'] + rest, ':');
    assert Split(long, ':') == [p, v] + tail;
    SplitOfSeparatorFree(v, ':');
    SplitAfterFirst(p, v, ':');
    assert Split(short, ':') == [p, v];
    SameFirstTwo(long, short);
  }

  /** Only the first two pieces of a split matter to the parse. */
  lemma SameFirstTwo(d: string, e: string)
    requires |Split(d, ':')| >= 2 && |Split(e, ':')| >= 2
    requires Split(d, ':')[..2] == Split(e, ':')[..2]
    ensures ParseDeclaration(d) == ParseDeclaration(e)
  {
    assert Split(d, ':')[0] == Split(d, ':')[..2][0];
    assert Split(d, ':')[1] == Split(d, ':')[..2][1];
  }

  // ---------------------------------------------------------------------
  // Video URLs

  /** `formatVideoUrl(url)`. For a `youtube.com/watch` URL the video id
      comes from the URL library's query-string lookup of `v`, which is the
      parameter `watchVideoId`. */
  function FormatVideoUrl(url: string, watchVideoId: string): string {
    if Contains(url, "youtube.com/watch") then "https://www.youtube.com/embed/" + watchVideoId
    else if Contains(url, "youtu.be") then "https://www.youtube.com/embed/" + LastPiece(url, '/')
    else if Contains(url, "vimeo.com") then "https://player.vimeo.com/video/" + LastPiece(url, '/')
    else url
  }

  /** The four cases of `formatVideoUrl`, in order of precedence; the short
      link and Vimeo cases embed the URL's last path segment: it holds no
      slash, ends the URL, and is preceded by a slash unless it is the whole
      URL. */
  lemma FormatVideoUrlCases(url: string, watchVideoId: string)
    ensures Contains(url, "youtube.com/watch") ==>
              FormatVideoUrl(url, watchVideoId) == "https://www.youtube.com/embed/" + watchVideoId
    ensures !Contains(url, "youtube.com/watch") && Contains(url, "youtu.be") ==>
              exists seg :: && FormatVideoUrl(url, watchVideoId) == "https://www.youtube.com/embed/" + seg
                             && '/' !in seg && |seg| <= |url| && url[|url| - |seg|..] == seg
                             && (|seg| < |url| ==> url[|url| - |seg| - 1] == '/')
    ensures !Contains(url, "youtube.com/watch") && !Contains(url, "youtu.be") && Contains(url, "vimeo.com") ==>
              exists seg :: && FormatVideoUrl(url, watchVideoId) == "https://player.vimeo.com/video/" + seg
                             && '/' !in seg && |seg| <= |url| && url[|url| - |seg|..] == seg
                             && (|seg| < |url| ==> url[|url| - |seg| - 1] == '/')
    ensures !Contains(url, "youtube.com/watch") && !Contains(url, "youtu.be") && !Contains(url, "vimeo.com") ==>
              FormatVideoUrl(url, watchVideoId) == url
  {
    LastPieceIsSuffix(url, '/');
  }

  // ---------------------------------------------------------------------
  // List items

  /** The items a new list element shows. */
  const DefaultListItems: string := "Item 1\nItem 2\nItem 3"

  /** `.filter(Boolean)` on strings: drops the empty ones. */
  function NonEmpty(parts: seq<string>): (r: seq<string>)
    ensures |r| <= |parts|
    ensures forall i :: 0 <= i < |r| ==> r[i] != ""
    ensures forall p :: p in r <==> p in parts && p != ""
  {
    if parts == [] then []
    else (if parts[0] == "" then [] else [parts[0]]) + NonEmpty(parts[1..])
  }

  /** `(properties.items || default).split("\n").filter(Boolean)`; `None`
      and the empty string are the falsy `items` values. */
  function ListItems(items: Option<string>): seq<string> {
    NonEmpty(Split(ItemsText(items), '\n'))
  }

  /** `properties.items || "Item 1\nItem 2\nItem 3"`. */
  function ItemsText(items: Option<string>): string {
    if items.None? || items.value == "" then DefaultListItems else items.value
  }

  function Concat(parts: seq<string>): string {
    if parts == [] then "" else parts[0] + Concat(parts[1..])
  }

  /** `s` without any occurrence of `c`. */
  function Without(s: string, c: char): string {
    if s == [] then "" else (if s[0] == c then "" else [s[0]]) + Without(s[1..], c)
  }

  /** The items are the lines of the text, in order, with the empty lines
      dropped: the text is the lines joined by line breaks, no line holds a
      line break, and the items are the non-empty lines. Read in order they
      are the text with its line breaks taken out. */
  lemma ListItemsAreLines(items: Option<string>)
    ensures var lines := Split(ItemsText(items), '\n');
      && Join(lines, '\n') == ItemsText(items)
      && (forall i :: 0 <= i < |lines| ==> '\n' !in lines[i])
      && ListItems(items) == NonEmpty(lines)
      && (forall i :: 0 <= i < |ListItems(items)| ==> ListItems(items)[i] != "" && '\n' !in ListItems(items)[i])
      && Concat(ListItems(items)) == Without(ItemsText(items), '\n')
  {
    LinesOf(ItemsText(items));
  }

  lemma LinesOf(text: string)
    ensures var lines := Split(text, '\n');
      && Join(lines, '\n') == text
      && (forall i :: 0 <= i < |NonEmpty(lines)| ==> NonEmpty(lines)[i] != "" && '\n' !in NonEmpty(lines)[i])
      && Concat(NonEmpty(lines)) == Without(text, '\n')
  {
    var lines := Split(text, '\n');
    JoinSplit(text, '\n');
    ConcatNonEmpty(lines);
    ConcatSplit(text, '\n');
    forall i | 0 <= i < |NonEmpty(lines)| ensures '\n' !in NonEmpty(lines)[i] {
      assert NonEmpty(lines)[i] in lines;
    }
  }

  /** Dropping the empty strings keeps the order of the rest: it distributes
      over concatenation. */
  lemma {:induction false} NonEmptyAppend(a: seq<string>, b: seq<string>)
    ensures NonEmpty(a + b) == NonEmpty(a) + NonEmpty(b)
  {
    if a != [] {
      assert (a + b)[0] == a[0];
      assert (a + b)[1..] == a[1..] + b;
      NonEmptyAppend(a[1..], b);
    } else {
      assert a + b == b;
    }
  }

  /** A single string is kept exactly when it is non-empty. */
  lemma NonEmptySingle(p: string)
    ensures NonEmpty([p]) == if p == "" then [] else [p]
  {
    assert [p][1..] == [];
  }

  lemma {:induction false} ConcatNonEmpty(parts: seq<string>)
    ensures Concat(NonEmpty(parts)) == Concat(parts)
  {
    if parts != [] {
      ConcatNonEmpty(parts[1..]);
      ConcatAppend(if parts[0] == "" then [] else [parts[0]], NonEmpty(parts[1..]));
    }
  }

  lemma {:induction false} ConcatAppend(a: seq<string>, b: seq<string>)
    ensures Concat(a + b) == Concat(a) + Concat(b)
  {
    if a != [] {
      assert (a + b)[1..] == a[1..] + b;
      ConcatAppend(a[1..], b);
    } else {
      assert a + b == b;
    }
  }

  lemma {:induction false} ConcatSplit(s: string, sep: char)
    ensures Concat(Split(s, sep)) == Without(s, sep)
  {
    if s != [] {
      ConcatSplit(s[1..], sep);
      var rest := Split(s[1..], sep);
      if s[0] == sep {
        assert Split(s, sep) == [""] + rest;
        assert ([""] + rest)[1..] == rest;
      } else {
        var r := [[s[0]] + rest[0]] + rest[1..];
        assert r[1..] == rest[1..];
        assert Concat(rest) == rest[0] + Concat(rest[1..]);
      }
    }
  }

  /** The default text has three lines. */
  lemma DefaultLines()
    ensures Split(DefaultListItems, '\n') == ["Item 1", "Item 2", "Item 3"]
  {
    var lines := ["Item 1", "Item 2", "Item 3"];
    assert Join(lines, '\n') == DefaultListItems by {
      assert lines[1..] == ["Item 2", "Item 3"];
      assert lines[1..][1..] == ["Item 3"];
    }
    SplitJoin(lines, '\n');
  }

  /** A list element without items shows the three default items. */
  lemma DefaultItems()
    ensures ListItems(None) == ["Item 1", "Item 2", "Item 3"]
    ensures ListItems(Some("")) == ListItems(None)
  {
    var lines := ["Item 1", "Item 2", "Item 3"];
    DefaultLines();
    assert NonEmpty(lines[2..]) == ["Item 3"];
    assert NonEmpty(lines[1..]) == ["Item 2", "Item 3"];
  }
}
