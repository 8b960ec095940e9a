/**
 * The text-handling rules of the ingestion pipeline (app/ingestion.py):
 * format handlers and the registry that picks the first one applicable,
 * the string clean-up of `preprocess`, `clean_node_id`, the conjunct
 * expansion of a noun phrase, and the assembly of nodes and edges from the
 * entities and dependency trees the language model returns.  The language
 * model, `fix_text` and the handlers' `process` are foreign code and come
 * in as parameters.
 */
module Ingestion {

  import opened Wrappers
  import opened Models
  import opened PyText

  // ---------------------------------------------------------------------
  // Handlers

  /** What a call to a handler's `applies` did: returned true, returned false, or raised. */
  datatype Probe = Holds | Fails | Raises

  /**
   * A format handler.  The three built in, and any other handler given by
   * its name and the outcome of its `applies` on each text.
   */
  datatype Handler =
    | HtmlHandler
    | JsonHandler
    | UnstructuredHandler(available: bool)
    | CustomHandler(name: string, probe: string -> Probe)

  function HandlerName(h: Handler): string {
    match h
    case HtmlHandler => "html"
    case JsonHandler => "json"
    case UnstructuredHandler(_) => "unstructured"
    case CustomHandler(name, _) => name
  }

  /** `HTMLHandler.applies`: both angle brackets occur, and the lower-cased text has `<html` or `<div`. */
  predicate HtmlApplies(text: string) {
    && Contains(text, "<")
    && Contains(text, ">")
    && (Contains(Lower(text), "<html") || Contains(Lower(text), "<div"))
  }

  /** `JSONHandler.applies`: the stripped text is wrapped in braces or in square brackets. */
  predicate JsonApplies(text: string) {
    var t := Strip(text);
    (StartsWith(t, "{") && EndsWith(t, "}")) || (StartsWith(t, "[") && EndsWith(t, "]"))
  }

  /** `UnstructuredHandler.applies`: the library is present and the text is longer than 50 characters. */
  predicate UnstructuredApplies(available: bool, text: string) {
    available && |text| > 50
  }

  /** The HTML test in terms of occurrences: `<` and `>` somewhere, and `<html` or `<div` in the lower-cased text. */
  lemma HtmlAppliesIff(text: string)
    ensures HtmlApplies(text) <==>
      && '<' in text && '>' in text
      && exists i :: OccursAt(Lower(text), "<html", i) || OccursAt(Lower(text), "<div", i)
  {
    ContainsChar(text, '<');
    ContainsChar(text, '>');
    ContainsIff(Lower(text), "<html");
    ContainsIff(Lower(text), "<div");
  }

  /** Lower-casing is idempotent. */
  lemma LowerLower(s: string)
    ensures Lower(Lower(s)) == Lower(s)
  {
  }

  /** Lower-casing moves no angle bracket. */
  lemma LowerKeepsBrackets(s: string, c: char)
    requires c == '<' || c == '>'
    ensures c in Lower(s) <==> c in s
  {
    if c in s {
      var i :| 0 <= i < |s| && s[i] == c;
      assert Lower(s)[i] == c;
    }
    if c in Lower(s) {
      var i :| 0 <= i < |s| && Lower(s)[i] == c;
      assert s[i] == c;
    }
  }

  /** The HTML test ignores case: a text and its lower-cased form are classified alike. */
  lemma HtmlAppliesIgnoresCase(text: string)
    ensures HtmlApplies(Lower(text)) <==> HtmlApplies(text)
  {
    LowerLower(text);
    LowerKeepsBrackets(text, '<');
    LowerKeepsBrackets(text, '>');
    ContainsChar(text, '<');
    ContainsChar(text, '>');
    ContainsChar(Lower(text), '<');
    ContainsChar(Lower(text), '>');
  }

  /** The JSON test holds exactly when the first and last non-whitespace characters are a pair of braces or of square brackets. */
  lemma JsonAppliesIff(text: string)
    ensures JsonApplies(text) <==> Framed(text, '{', '}') || Framed(text, '[', ']')
  {
    StripFramedIff(text, '{', '}');
    StripFramedIff(text, '[', ']');
  }

  /** The outcome of `h.applies(text)`. */
  function Applies(h: Handler, text: string): Probe {
    match h
    case HtmlHandler => if HtmlApplies(text) then Holds else Fails
    case JsonHandler => if JsonApplies(text) then Holds else Fails
    case UnstructuredHandler(available) => if UnstructuredApplies(available, text) then Holds else Fails
    case CustomHandler(_, probe) => probe(text)
  }

  /**
   * The position of the handler `find` picks: the first whose `applies`
   * holds, a handler that raises counting as one that does not apply.
   */
  function FirstApplicable(hs: seq<Handler>, text: string): (r: Option<nat>)
    ensures r.Some? ==> r.value < |hs| && Applies(hs[r.value], text) == Holds
    ensures r.Some? ==> forall j :: 0 <= j < r.value ==> Applies(hs[j], text) != Holds
    ensures r.None? <==> forall j :: 0 <= j < |hs| ==> Applies(hs[j], text) != Holds
    decreases |hs|
  {
    if hs == [] then None
    else if Applies(hs[0], text) == Holds then Some(0)
    else
      match FirstApplicable(hs[1..], text)
      case None => None
      case Some(i) => Some(i + 1)
  }

  /** The head is tried first; after it, positions in the rest are shifted by one. */
  lemma FirstApplicableCons(h: Handler, hs: seq<Handler>, text: string)
    ensures FirstApplicable([h] + hs, text) ==
      if Applies(h, text) == Holds then Some(0)
      else if FirstApplicable(hs, text).Some? then Some(FirstApplicable(hs, text).value + 1)
      else None
  {
    var s := [h] + hs;
    assert s[0] == h && s[1..] == hs;
    FirstApplicableUnfold(s, text);
  }

  /** One step of `find`'s loop over a non-empty handler list. */
  lemma FirstApplicableUnfold(s: seq<Handler>, text: string)
    requires s != []
    ensures FirstApplicable(s, text) ==
      if Applies(s[0], text) == Holds then Some(0)
      else if FirstApplicable(s[1..], text).Some? then Some(FirstApplicable(s[1..], text).value + 1)
      else None
  {
  }

  /** Registering one more handler never changes a choice already made, and otherwise tries the newcomer last. */
  lemma {:induction false} RegisterLast(hs: seq<Handler>, h: Handler, text: string)
    ensures FirstApplicable(hs + [h], text) ==
      if FirstApplicable(hs, text).Some? then FirstApplicable(hs, text)
      else if Applies(h, text) == Holds then Some(|hs|)
      else None
    decreases |hs|
  {
    if hs == [] {
      assert hs + [h] == [h] + [];
      FirstApplicableCons(h, [], text);
    } else {
      assert hs + [h] == [hs[0]] + (hs[1..] + [h]);
      assert hs == [hs[0]] + hs[1..];
      FirstApplicableCons(hs[0], hs[1..] + [h], text);
      FirstApplicableCons(hs[0], hs[1..], text);
      RegisterLast(hs[1..], h, text);
    }
  }

  /** The handler list, an ordered list to which handlers are appended. */
  class HandlerRegistry {
    var handlers: seq<Handler>

    constructor ()
      ensures handlers == []
    {
      handlers := [];
    }

    /** `register(handler)`: append. */
    method Register(h: Handler)
      modifies this
      ensures handlers == old(handlers) + [h]
    {
      handlers := handlers + [h];
    }

    /** `find(text)`: the first handler whose `applies` holds, trying the handlers in order. */
    method Find(text: string) returns (r: Option<Handler>)
      ensures r.None? <==> FirstApplicable(handlers, text).None?
      ensures r.Some? ==> r.value == handlers[FirstApplicable(handlers, text).value]
    {
      for i := 0 to |handlers|
        invariant forall j :: 0 <= j < i ==> Applies(handlers[j], text) != Holds
      {
        var outcome := Applies(handlers[i], text);
        if outcome == Holds {
          return Some(handlers[i]);
        }
      }
      return None;
    }
  }

  /** The handlers the pipeline registers: HTML, then JSON, then Unstructured when the library is present. */
  function PipelineHandlers(unstructuredAvailable: bool): seq<Handler> {
    [HtmlHandler, JsonHandler] + (if unstructuredAvailable then [UnstructuredHandler(true)] else [])
  }

  /**
   * The pipeline's dispatch: HTML before JSON before Unstructured, and no
   * handler when none applies.
   */
  lemma PipelineDispatch(unstructuredAvailable: bool, text: string)
    ensures FirstApplicable(PipelineHandlers(unstructuredAvailable), text) ==
      if Applies(HtmlHandler, text) == Holds then Some(0)
      else if Applies(JsonHandler, text) == Holds then Some(1)
      else if unstructuredAvailable && Applies(UnstructuredHandler(true), text) == Holds then Some(2)
      else None
  {
    var tail := if unstructuredAvailable then [UnstructuredHandler(true)] else [];
    assert PipelineHandlers(unstructuredAvailable) == [HtmlHandler] + ([JsonHandler] + tail);
    FirstApplicableCons(HtmlHandler, [JsonHandler] + tail, text);
    FirstApplicableCons(JsonHandler, tail, text);
    if unstructuredAvailable {
      FirstApplicableCons(UnstructuredHandler(true), [], text);
    }
  }

  // ---------------------------------------------------------------------
  // Cleaning

  /**
   * The string steps of `preprocess` after `fix_text`: delete every
   * `[...]` span (a citation such as `[1]`), then collapse whitespace.
   */
  function CleanText(s: string): string {
    CollapseWhitespace(StripSpans(s, '[', ']'))
  }

  /** The cleaned text has no leading, trailing or adjacent whitespace, and collapsing it again changes nothing. */
  lemma CleanTextShape(s: string)
    ensures var r := CleanText(s);
      && (r == [] || (!IsSpace(r[0]) && !IsSpace(r[|r| - 1])))
      && (forall i :: 0 <= i < |r| - 1 ==> !(IsSpace(r[i]) && IsSpace(r[i + 1])))
      && CollapseWhitespace(r) == r
  {
    CollapseWhitespaceShape(StripSpans(s, '[', ']'));
    CollapseWhitespaceIdempotent(StripSpans(s, '[', ']'));
  }

  /**
   * `clean_node_id`: delete every `(...)` span, then every `[...]` span,
   * then strip.  No span of either kind is left and the ends are not
   * whitespace.
   */
  function CleanNodeId(t: string): (r: string)
    ensures r == [] || (!IsSpace(r[0]) && !IsSpace(r[|r| - 1]))
    ensures NoSpan(r, '(', ')') && NoSpan(r, '[', ']')
  {
    var a := StripSpans(t, '(', ')');
    var b := StripSpans(a, '[', ']');
    StripSpansNoSpan(t, '(', ')');
    StripSpansKeepsNoSpan(a, '[', ']', '(', ')');
    StripSpansNoSpan(a, '[', ']');
    StripKeepsNoSpan(b, '(', ')');
    StripKeepsNoSpan(b, '[', ']');
    Strip(b)
  }

  /** A text with no whitespace at its ends strips to itself. */
  lemma StripTrimmed(r: string)
    requires r == [] || (!IsSpace(r[0]) && !IsSpace(r[|r| - 1]))
    ensures Strip(r) == r
  {
    if r != [] {
      LStripFrom(r, 0);
      assert r[0..] == r;
      RStripUpTo(r, |r| - 1);
    }
  }

  /** An id without spans of either kind is only stripped. */
  lemma CleanNodeIdOfSpanFree(t: string)
    requires NoSpan(t, '(', ')') && NoSpan(t, '[', ']')
    ensures CleanNodeId(t) == Strip(t)
  {
    NoSpanFixpoint(t, '(', ')');
    NoSpanFixpoint(t, '[', ']');
  }

  /** Text before a parenthesised span is kept, the span is deleted, and the text is stripped. */
  lemma CleanNodeIdDropsRemark(a: string, m: string)
    requires '(' !in a && '[' !in a && ')' !in m && '\n' !in m && '[' !in m
    ensures CleanNodeId(a + "(" + m + ")") == Strip(a)
  {
    var t := a + "(" + m + ")";
    assert t == a + (['('] + m + [')'] + []);
    StripSpansPlain(a, ['('] + m + [')'] + [], '(', ')');
    StripSpansDropsSpan(m, [], '(', ')');
    assert a + [] == a;
    StripSpansPlain(a, [], '[', ']');
  }

  /** Cleaning an id that is already clean changes nothing. */
  lemma CleanNodeIdIdempotent(t: string)
    ensures CleanNodeId(CleanNodeId(t)) == CleanNodeId(t)
  {
    var r := CleanNodeId(t);
    NoSpanFixpoint(r, '(', ')');
    NoSpanFixpoint(r, '[', ']');
    StripTrimmed(r);
  }

  /** The articles `^(The|A|An)\s+` removes, case folded. */
  const Articles: seq<string> := ["the", "a", "an"]

  /** `s` starts with the article `w` in any case, followed by whitespace. */
  predicate ArticleAt(s: string, w: string) {
    |w| < |s| && Lower(s[..|w|]) == w && IsSpace(s[|w|])
  }

  /** The characters of an article, lower-cased, open `s`. */
  lemma ArticleLetters(s: string, w: string)
    requires ArticleAt(s, w)
    ensures forall i :: 0 <= i < |w| ==> LowerChar(s[i]) == w[i]
  {
    forall i | 0 <= i < |w|
      ensures LowerChar(s[i]) == w[i]
    {
      assert Lower(s[..|w|])[i] == LowerChar(s[..|w|][i]);
    }
  }

  /** At most one article opens a text. */
  lemma ArticlesExclusive(s: string)
    ensures !(ArticleAt(s, "the") && ArticleAt(s, "a"))
    ensures !(ArticleAt(s, "the") && ArticleAt(s, "an"))
    ensures !(ArticleAt(s, "a") && ArticleAt(s, "an"))
  {
    if ArticleAt(s, "the") { ArticleLetters(s, "the"); }
    if ArticleAt(s, "a") { ArticleLetters(s, "a"); }
    if ArticleAt(s, "an") { ArticleLetters(s, "an"); }
  }

  /**
   * `re.sub(r'^(The|A|An)\s+', '', s, flags=re.IGNORECASE)`: a leading
   * article and the whitespace run after it are removed, once.
   */
  function StripArticle(s: string): (r: string)
    ensures |r| <= |s| && r == s[|s| - |r|..]
    ensures (forall w :: w in Articles ==> !ArticleAt(s, w)) ==> r == s
    ensures r != s ==> exists w :: w in Articles && ArticleAt(s, w) && r == LStrip(s[|w|..])
    ensures forall w :: w in Articles && ArticleAt(s, w) ==> r == LStrip(s[|w|..])
  {
    var r :=
      if ArticleAt(s, "the") then LStrip(s[3..])
      else if ArticleAt(s, "a") then LStrip(s[1..])
      else if ArticleAt(s, "an") then LStrip(s[2..])
      else s;
    ArticleNone(s, r);
    ArticleSome(s, r);
    ArticleEach(s, r);
    r
  }

  // What the three alternatives of the pattern, tried in order, leave of `s`.

  /** Without a leading article nothing is removed. */
  lemma ArticleNone(s: string, r: string)
    requires ArticleAt(s, "the") ==> r == LStrip(s[3..])
    requires !ArticleAt(s, "the") && ArticleAt(s, "a") ==> r == LStrip(s[1..])
    requires !ArticleAt(s, "the") && !ArticleAt(s, "a") && ArticleAt(s, "an") ==> r == LStrip(s[2..])
    requires !ArticleAt(s, "the") && !ArticleAt(s, "a") && !ArticleAt(s, "an") ==> r == s
    ensures (forall w :: w in Articles ==> !ArticleAt(s, w)) ==> r == s
  {
    assert "the" in Articles && "a" in Articles && "an" in Articles;
  }

  /** Whatever is removed is a leading article and the whitespace after it. */
  lemma ArticleSome(s: string, r: string)
    requires ArticleAt(s, "the") ==> r == LStrip(s[3..])
    requires !ArticleAt(s, "the") && ArticleAt(s, "a") ==> r == LStrip(s[1..])
    requires !ArticleAt(s, "the") && !ArticleAt(s, "a") && ArticleAt(s, "an") ==> r == LStrip(s[2..])
    requires !ArticleAt(s, "the") && !ArticleAt(s, "a") && !ArticleAt(s, "an") ==> r == s
    ensures r != s ==> exists w :: w in Articles && ArticleAt(s, w) && r == LStrip(s[|w|..])
  {
    if r != s {
      if ArticleAt(s, "the") {
        assert "the" in Articles && ArticleAt(s, "the") && r == LStrip(s[|"the"|..]);
      } else if ArticleAt(s, "a") {
        assert "a" in Articles && ArticleAt(s, "a") && r == LStrip(s[|"a"|..]);
      } else {
        assert "an" in Articles && ArticleAt(s, "an") && r == LStrip(s[|"an"|..]);
      }
    }
  }

  /** Whichever article opens `s`, it is the one removed: the alternatives never compete. */
  lemma ArticleEach(s: string, r: string)
    requires ArticleAt(s, "the") ==> r == LStrip(s[3..])
    requires !ArticleAt(s, "the") && ArticleAt(s, "a") ==> r == LStrip(s[1..])
    requires !ArticleAt(s, "the") && !ArticleAt(s, "a") && ArticleAt(s, "an") ==> r == LStrip(s[2..])
    requires !ArticleAt(s, "the") && !ArticleAt(s, "a") && !ArticleAt(s, "an") ==> r == s
    ensures forall w :: w in Articles && ArticleAt(s, w) ==> r == LStrip(s[|w|..])
  {
    ArticlesExclusive(s);
    forall w | w in Articles && ArticleAt(s, w)
      ensures r == LStrip(s[|w|..])
    {
      assert w == "the" || w == "a" || w == "an";
    }
  }

  /** The generic words the relation filter refuses, compared lower-cased. */
  const StopConcepts: seq<string> := ["it", "he", "she", "they", "this", "that", "one", "who", "which"]

  predicate IsStopConcept(s: string) {
    Lower(s) in StopConcepts
  }

  /** The entity labels that never become nodes. */
  const ExcludedLabels: seq<string> := ["CARDINAL", "DATE", "TIME", "PERCENT", "QUANTITY", "ORDINAL"]

  // ---------------------------------------------------------------------
  // The language model's output

  /**
   * A token of the dependency parse with the subtree below it: its text,
   * its lemma (`lemma_`), part of speech (`pos_`), dependency label
   * (`dep_`) and children in order.
   */
  datatype Token = Token(text: string, base: string, pos: string, dep: string, children: seq<Token>)

  /** A token of the document together with its syntactic head. */
  datatype DocToken = DocToken(tok: Token, head: Token)

  /** A named entity: its label (`label_`) and its text. */
  datatype Entity = Entity(kind: string, text: string)

  /** What the language model returns for a text: its entities and its tokens in document order. */
  datatype Doc = Doc(ents: seq<Entity>, tokens: seq<DocToken>)

  /**
   * `expand_noun_phrase(token)`: the token, then, for each child in order
   * whose dependency is `conj`, that child's own expansion.
   */
  function Expand(t: Token): (r: seq<Token>)
    ensures |r| >= 1 && r[0] == t
    ensures forall i :: 1 <= i < |r| ==> r[i].dep == "conj"
    decreases t, 1
  {
    [t] + ExpandFrom(t, 0)
  }

  /** The expansions of the `conj` children of `t` from the `i`-th on, concatenated. */
  function ExpandFrom(t: Token, i: nat): (r: seq<Token>)
    requires i <= |t.children|
    ensures forall k :: 0 <= k < |r| ==> r[k].dep == "conj"
    decreases t, 0, |t.children| - i
  {
    if i == |t.children| then []
    else (if t.children[i].dep == "conj" then Expand(t.children[i]) else []) + ExpandFrom(t, i + 1)
  }

  /** `x` is `t` or is reached from `t` by following `conj` children only. */
  ghost predicate ConjReach(t: Token, x: Token)
    decreases t
  {
    x == t || exists i :: 0 <= i < |t.children| && t.children[i].dep == "conj" && ConjReach(t.children[i], x)
  }

  /** The expansion holds exactly the tokens reached from `t` along `conj` links. */
  lemma {:induction false} ExpandIsConjClosure(t: Token, x: Token)
    ensures x in Expand(t) <==> ConjReach(t, x)
    decreases t, 1
  {
    ExpandFromIsConjClosure(t, 0, x);
  }

  lemma {:induction false} ExpandFromIsConjClosure(t: Token, i: nat, x: Token)
    requires i <= |t.children|
    ensures x in ExpandFrom(t, i) <==>
      exists k :: i <= k < |t.children| && t.children[k].dep == "conj" && ConjReach(t.children[k], x)
    decreases t, 0, |t.children| - i
  {
    if i < |t.children| {
      var c := t.children[i];
      ExpandFromIsConjClosure(t, i + 1, x);
      if c.dep == "conj" {
        ExpandIsConjClosure(c, x);
      }
      if exists k :: i <= k < |t.children| && t.children[k].dep == "conj" && ConjReach(t.children[k], x) {
        var k :| i <= k < |t.children| && t.children[k].dep == "conj" && ConjReach(t.children[k], x);
        if k == i {
          ExpandIsConjClosure(c, x);
        }
      }
    }
  }

  // ---------------------------------------------------------------------
  // Subjects, objects and relations of a verb

  const SubjectDeps: seq<string> := ["nsubj", "csubj", "nsubjpass", "csubjpass"]
  const ClauseDeps: seq<string> := ["acl", "relcl", "advcl"]
  const ObjectDeps: seq<string> := ["dobj", "attr", "acomp", "oprd"]

  predicate IsVerb(t: Token) {
    t.pos == "VERB" || t.pos == "AUX"
  }

  /** The subjects found among the children `cs`: every subject child, expanded, in order. */
  function SubjectsFrom(cs: seq<Token>): seq<Token>
    decreases |cs|
  {
    if cs == [] then []
    else SubjectsFrom(cs[..|cs| - 1]) + (if cs[|cs| - 1].dep in SubjectDeps then Expand(cs[|cs| - 1]) else [])
  }

  /** A token is a subject exactly when it is reached along `conj` links from a subject child. */
  lemma {:induction false} SubjectsFromIff(cs: seq<Token>, x: Token)
    ensures x in SubjectsFrom(cs) <==> exists i :: 0 <= i < |cs| && cs[i].dep in SubjectDeps && ConjReach(cs[i], x)
    decreases |cs|
  {
    if cs != [] {
      var init := cs[..|cs| - 1];
      var last := cs[|cs| - 1];
      SubjectsFromIff(init, x);
      ExpandIsConjClosure(last, x);
      if exists i :: 0 <= i < |init| && init[i].dep in SubjectDeps && ConjReach(init[i], x) {
        var i :| 0 <= i < |init| && init[i].dep in SubjectDeps && ConjReach(init[i], x);
        assert cs[i] == init[i];
      }
      if exists i :: 0 <= i < |cs| && cs[i].dep in SubjectDeps && ConjReach(cs[i], x) {
        var i :| 0 <= i < |cs| && cs[i].dep in SubjectDeps && ConjReach(cs[i], x);
        if i < |init| {
          assert init[i] == cs[i];
        }
      }
    }
  }

  /** A verb's subjects; with none, a verb heading a clause takes its own head as subject. */
  function Subjects(dt: DocToken): seq<Token> {
    var found := SubjectsFrom(dt.tok.children);
    if found == [] && dt.tok.dep in ClauseDeps then [dt.head] else found
  }

  /** The `pobj` grandchildren among `gs`, expanded, in order. */
  function PobjsFrom(gs: seq<Token>): seq<Token>
    decreases |gs|
  {
    if gs == [] then []
    else PobjsFrom(gs[..|gs| - 1]) + (if gs[|gs| - 1].dep == "pobj" then Expand(gs[|gs| - 1]) else [])
  }

  /** A token is a prepositional object exactly when it is reached along `conj` links from a `pobj` child. */
  lemma {:induction false} PobjsFromIff(gs: seq<Token>, x: Token)
    ensures x in PobjsFrom(gs) <==> exists i :: 0 <= i < |gs| && gs[i].dep == "pobj" && ConjReach(gs[i], x)
    decreases |gs|
  {
    if gs != [] {
      var init := gs[..|gs| - 1];
      var last := gs[|gs| - 1];
      PobjsFromIff(init, x);
      ExpandIsConjClosure(last, x);
      if exists i :: 0 <= i < |init| && init[i].dep == "pobj" && ConjReach(init[i], x) {
        var i :| 0 <= i < |init| && init[i].dep == "pobj" && ConjReach(init[i], x);
        assert gs[i] == init[i];
      }
      if exists i :: 0 <= i < |gs| && gs[i].dep == "pobj" && ConjReach(gs[i], x) {
        var i :| 0 <= i < |gs| && gs[i].dep == "pobj" && ConjReach(gs[i], x);
        if i < |init| {
          assert init[i] == gs[i];
        }
      }
    }
  }

  /** The objects one child contributes: itself expanded when an object, or its `pobj` children when a preposition or an agent. */
  function ChildObjects(c: Token): seq<Token> {
    (if c.dep in ObjectDeps then Expand(c) else [])
    + (if c.dep == "prep" then PobjsFrom(c.children) else [])
    + (if c.dep == "agent" then PobjsFrom(c.children) else [])
  }

  /** The objects found among the children `cs`, in order. */
  function ObjectsFrom(cs: seq<Token>): seq<Token>
    decreases |cs|
  {
    if cs == [] then [] else ObjectsFrom(cs[..|cs| - 1]) + ChildObjects(cs[|cs| - 1])
  }

  /** A subject text, an object text and the verb's lemma: one candidate edge. */
  datatype Relation = Relation(subj: string, obj: string, verb: string)

  /** One subject against every object, in object order. */
  function Row(s: Token, os: seq<Token>, verb: string): seq<Relation>
    decreases |os|
  {
    if os == [] then [] else Row(s, os[..|os| - 1], verb) + [Relation(s.text, os[|os| - 1].text, verb)]
  }

  /** Every subject against every object, subject-major. */
  function Cross(ss: seq<Token>, os: seq<Token>, verb: string): seq<Relation>
    decreases |ss|
  {
    if ss == [] then [] else Cross(ss[..|ss| - 1], os, verb) + Row(ss[|ss| - 1], os, verb)
  }

  /** The pairs are exactly the subject-object combinations. */
  lemma {:induction false} CrossIsProduct(ss: seq<Token>, os: seq<Token>, verb: string, r: Relation)
    ensures r in Cross(ss, os, verb) <==>
      exists i, j :: 0 <= i < |ss| && 0 <= j < |os| && r == Relation(ss[i].text, os[j].text, verb)
    decreases |ss|
  {
    if ss != [] {
      var init := ss[..|ss| - 1];
      CrossIsProduct(init, os, verb, r);
      RowIsProduct(ss[|ss| - 1], os, verb, r);
      if r in Cross(init, os, verb) {
        var i, j :| 0 <= i < |init| && 0 <= j < |os| && r == Relation(init[i].text, os[j].text, verb);
        assert ss[i] == init[i];
      }
      if exists i, j :: 0 <= i < |ss| && 0 <= j < |os| && r == Relation(ss[i].text, os[j].text, verb) {
        var i, j :| 0 <= i < |ss| && 0 <= j < |os| && r == Relation(ss[i].text, os[j].text, verb);
        if i < |init| {
          assert init[i] == ss[i];
        }
      }
    }
  }

  lemma {:induction false} RowIsProduct(s: Token, os: seq<Token>, verb: string, r: Relation)
    ensures r in Row(s, os, verb) <==> exists j :: 0 <= j < |os| && r == Relation(s.text, os[j].text, verb)
    decreases |os|
  {
    if os != [] {
      var init := os[..|os| - 1];
      RowIsProduct(s, init, verb, r);
      if r in Row(s, init, verb) {
        var j :| 0 <= j < |init| && r == Relation(s.text, init[j].text, verb);
        assert os[j] == init[j];
      }
      if exists j :: 0 <= j < |os| && r == Relation(s.text, os[j].text, verb) {
        var j :| 0 <= j < |os| && r == Relation(s.text, os[j].text, verb);
        if j < |init| {
          assert init[j] == os[j];
        }
      }
    }
  }

  /** The candidate edges of one token: none unless it is a verb. */
  function VerbRelations(dt: DocToken): seq<Relation> {
    if IsVerb(dt.tok) then Cross(Subjects(dt), ObjectsFrom(dt.tok.children), dt.tok.base) else []
  }

  /** The candidate edges of the tokens, in document order. */
  function Relations(ts: seq<DocToken>): seq<Relation>
    decreases |ts|
  {
    if ts == [] then [] else Relations(ts[..|ts| - 1]) + VerbRelations(ts[|ts| - 1])
  }

  // ---------------------------------------------------------------------
  // Registering nodes and edges

  /**
   * The `nodes` dictionary (its keys in insertion order, which
   * `list(nodes.values())` follows) and the `edges` list.
   */
  datatype Extraction = Extraction(order: seq<NodeId>, nodes: map<NodeId, NodeCreate>, edges: seq<EdgeCreate>)

  const Fresh: Extraction := Extraction([], map[], [])

  /** Every id in the order is a key, no id is listed twice, and each node is stored under its own id. */
  predicate WellFormed(ex: Extraction) {
    && (forall i :: 0 <= i < |ex.order| ==> ex.order[i] in ex.nodes)
    && (forall k :: k in ex.nodes ==> k in ex.order && ex.nodes[k].id == k)
    && (forall i, j :: 0 <= i < j < |ex.order| ==> ex.order[i] != ex.order[j])
  }

  /** `if n.id not in nodes: nodes[n.id] = n`: the first node registered under an id stays. */
  function Register(ex: Extraction, n: NodeCreate): (r: Extraction)
    ensures n.id in r.nodes && r.edges == ex.edges
    ensures n.id !in ex.nodes ==> r.nodes[n.id] == n
    ensures forall k :: k in ex.nodes ==> k in r.nodes && r.nodes[k] == ex.nodes[k]
    ensures forall k :: k in r.nodes ==> k in ex.nodes || k == n.id
    ensures WellFormed(ex) ==> WellFormed(r)
  {
    if n.id in ex.nodes then ex
    else ex.(order := ex.order + [n.id], nodes := ex.nodes[n.id := n])
  }

  /** The node an entity becomes: the cleaned text as id, `"LABEL: text"` as text, the label in the metadata. */
  function EntityNode(e: Entity, id: NodeId): NodeCreate {
    NodeCreate(id, e.kind + ": " + e.text, map["label" := Str(e.kind)])
  }

  /** The node a relation endpoint becomes when nothing registered it before. */
  function ConceptNode(id: NodeId): NodeCreate {
    NodeCreate(id, id, map["label" := Str("CONCEPT")])
  }

  /** An entity becomes a node unless its label is excluded or its cleaned text is shorter than 2. */
  predicate KeptEntity(e: Entity) {
    e.kind !in ExcludedLabels && |CleanNodeId(e.text)| >= 2
  }

  /** The node an entity adds, if it is kept. */
  function EntityNodeOf(e: Entity): (o: Option<NodeCreate>)
    ensures o.Some? <==> KeptEntity(e)
    ensures o.Some? ==> o.value == EntityNode(e, CleanNodeId(e.text))
  {
    if KeptEntity(e) then Some(EntityNode(e, CleanNodeId(e.text))) else None
  }

  /** Registers the node `o` holds, if any. */
  function RegisterOption(ex: Extraction, o: Option<NodeCreate>): Extraction {
    match o
    case None => ex
    case Some(n) => Register(ex, n)
  }

  /** Registers the held nodes one after the other. */
  function RegisterOptions(ex: Extraction, os: seq<Option<NodeCreate>>): Extraction
    decreases |os|
  {
    if os == [] then ex else RegisterOption(RegisterOptions(ex, os[..|os| - 1]), os[|os| - 1])
  }

  /** The first loop, over the entities. */
  function ApplyEntities(ex: Extraction, es: seq<Entity>): Extraction {
    RegisterOptions(ex, MapSeq(EntityNodeOf, es))
  }

  /** A relation endpoint's id: cleaned, then a leading article removed. */
  function Endpoint(text: string): string {
    StripArticle(CleanNodeId(text))
  }

  /** A relation is kept when both endpoint ids have at least 2 characters and neither is a stop concept. */
  predicate KeptRelation(r: Relation) {
    && |Endpoint(r.subj)| >= 2 && |Endpoint(r.obj)| >= 2
    && !IsStopConcept(Endpoint(r.subj)) && !IsStopConcept(Endpoint(r.obj))
  }

  /** The edge a relation adds, if it is kept. */
  function EdgeOf(r: Relation): (e: Option<EdgeCreate>)
    ensures e.Some? <==> KeptRelation(r)
    ensures e.Some? ==> e.value.weight == 1.0 && e.value.relType == r.verb
    ensures e.Some? ==> |e.value.source| >= 2 && |e.value.target| >= 2
    ensures e.Some? ==> !IsStopConcept(e.value.source) && !IsStopConcept(e.value.target)
    ensures e.Some? ==> e.value.source == Endpoint(r.subj) && e.value.target == Endpoint(r.obj)
  {
    if KeptRelation(r) then Some(EdgeCreate(Endpoint(r.subj), Endpoint(r.obj), r.verb, 1.0)) else None
  }

  /** Registers both endpoints (source first) as concept nodes, then appends the edge. */
  function Connect(ex: Extraction, e: EdgeCreate): Extraction {
    var ex1 := Register(Register(ex, ConceptNode(e.source)), ConceptNode(e.target));
    ex1.(edges := ex1.edges + [e])
  }

  /** The second loop: every kept relation's edge connected in turn. */
  function AddEdges(ex: Extraction, es: seq<EdgeCreate>): Extraction
    decreases |es|
  {
    if es == [] then ex else Connect(AddEdges(ex, es[..|es| - 1]), es[|es| - 1])
  }

  /** Everything `extract_structured_data` assembles from the model's output. */
  function Extracted(doc: Doc): Extraction {
    AddEdges(ApplyEntities(Fresh, doc.ents), EdgesOf(Relations(doc.tokens)))
  }

  /** The values held by the `Some`s of `os`, in order. */
  function Somes<T>(os: seq<Option<T>>): seq<T>
    decreases |os|
  {
    if os == [] then [] else Somes(os[..|os| - 1]) + OptionList(os[|os| - 1])
  }

  function OptionList<T>(o: Option<T>): seq<T> {
    match o
    case None => []
    case Some(v) => [v]
  }

  lemma {:induction false} SomesAppend<T>(a: seq<Option<T>>, b: seq<Option<T>>)
    ensures Somes(a + b) == Somes(a) + Somes(b)
    decreases |b|
  {
    if b != [] {
      var init := b[..|b| - 1];
      SomesAppend(a, init);
      assert (a + b)[..|a + b| - 1] == a + init;
      assert (a + b)[|a + b| - 1] == b[|b| - 1];
      assert Somes(a + b) == Somes(a + init) + OptionList(b[|b| - 1]);
      assert Somes(b) == Somes(init) + OptionList(b[|b| - 1]);
    } else {
      assert a + b == a;
    }
  }

  lemma SomesIff<T>(os: seq<Option<T>>, v: T)
    ensures v in Somes(os) <==> exists i :: 0 <= i < |os| && os[i] == Some(v)
  {
    if v in Somes(os) {
      SomesFrom(os, v);
    }
    if exists i :: 0 <= i < |os| && os[i] == Some(v) {
      var i :| 0 <= i < |os| && os[i] == Some(v);
      SomesHas(os, i);
    }
  }

  lemma {:induction false} SomesFrom<T>(os: seq<Option<T>>, v: T)
    requires v in Somes(os)
    ensures exists i :: 0 <= i < |os| && os[i] == Some(v)
    decreases |os|
  {
    var init := os[..|os| - 1];
    if v in Somes(init) {
      SomesFrom(init, v);
      var i :| 0 <= i < |init| && init[i] == Some(v);
      assert os[i] == init[i];
    } else {
      assert os[|os| - 1] == Some(v);
    }
  }

  lemma {:induction false} SomesHas<T>(os: seq<Option<T>>, i: nat)
    requires i < |os| && os[i].Some?
    ensures os[i].value in Somes(os)
    decreases |os|
  {
    var init := os[..|os| - 1];
    if i < |init| {
      SomesHas(init, i);
      assert init[i] == os[i];
    }
  }

  /** `f` applied to every element of `s`. */
  function MapSeq<A, B>(f: A -> B, s: seq<A>): seq<B> {
    seq(|s|, i requires 0 <= i < |s| => f(s[i]))
  }

  lemma MapSeqAppend<A, B>(f: A -> B, a: seq<A>, b: seq<A>)
    ensures MapSeq(f, a + b) == MapSeq(f, a) + MapSeq(f, b)
  {
  }

  /** The edges the kept relations add, in order. */
  function EdgesOf(rs: seq<Relation>): seq<EdgeCreate> {
    Somes(MapSeq(EdgeOf, rs))
  }

  /** An edge is added exactly when some relation yields it. */
  lemma EdgesOfIff(rs: seq<Relation>, e: EdgeCreate)
    ensures e in EdgesOf(rs) <==> exists i :: 0 <= i < |rs| && EdgeOf(rs[i]) == Some(e)
  {
    SomesOfMapIff(EdgeOf, rs, e);
  }

  lemma SomesOfMapSingle<A, B>(f: A -> Option<B>, x: A)
    ensures Somes(MapSeq(f, [x])) == OptionList(f(x))
  {
    assert MapSeq(f, [x]) == [f(x)];
    assert [f(x)][..0] == [];
  }

  lemma SomesOfMapIff<A, B>(f: A -> Option<B>, s: seq<A>, v: B)
    ensures v in Somes(MapSeq(f, s)) <==> exists i :: 0 <= i < |s| && f(s[i]) == Some(v)
  {
    var m := MapSeq(f, s);
    SomesIff(m, v);
    if exists i :: 0 <= i < |m| && m[i] == Some(v) {
      var i :| 0 <= i < |m| && m[i] == Some(v);
      assert f(s[i]) == Some(v);
    }
    if exists i :: 0 <= i < |s| && f(s[i]) == Some(v) {
      var i :| 0 <= i < |s| && f(s[i]) == Some(v);
      assert m[i] == Some(v);
    }
  }

  lemma EdgesOfAppend(a: seq<Relation>, b: seq<Relation>)
    ensures EdgesOf(a + b) == EdgesOf(a) + EdgesOf(b)
  {
    MapSeqAppend(EdgeOf, a, b);
    SomesAppend(MapSeq(EdgeOf, a), MapSeq(EdgeOf, b));
  }

  lemma ConnectKeeps(ex: Extraction, e: EdgeCreate)
    ensures Connect(ex, e).edges == ex.edges + [e]
    ensures forall k :: k in ex.nodes ==> k in Connect(ex, e).nodes && Connect(ex, e).nodes[k] == ex.nodes[k]
    ensures forall k :: k in Connect(ex, e).nodes && k !in ex.nodes ==> Connect(ex, e).nodes[k] == ConceptNode(k)
    ensures WellFormed(ex) ==> WellFormed(Connect(ex, e))
    ensures e.source in Connect(ex, e).nodes && e.target in Connect(ex, e).nodes
  {
    var ex1 := Register(ex, ConceptNode(e.source));
    var ex2 := Register(ex1, ConceptNode(e.target));
    assert Connect(ex, e) == ex2.(edges := ex2.edges + [e]);
  }

  /** `o` holds a node registered under `k`. */
  predicate HoldsId(o: Option<NodeCreate>, k: NodeId) {
    o.Some? && o.value.id == k
  }

  lemma {:induction false} RegisterOptionsKeeps(ex: Extraction, os: seq<Option<NodeCreate>>)
    ensures RegisterOptions(ex, os).edges == ex.edges
    ensures forall k :: k in ex.nodes ==> k in RegisterOptions(ex, os).nodes && RegisterOptions(ex, os).nodes[k] == ex.nodes[k]
    ensures WellFormed(ex) ==> WellFormed(RegisterOptions(ex, os))
    decreases |os|
  {
    if os != [] {
      RegisterOptionsKeeps(ex, os[..|os| - 1]);
    }
  }

  lemma {:induction false} RegisterOptionsRegisters(ex: Extraction, os: seq<Option<NodeCreate>>, k: NodeId)
    requires k !in ex.nodes
    ensures k in RegisterOptions(ex, os).nodes <==> exists i :: 0 <= i < |os| && HoldsId(os[i], k)
    decreases |os|
  {
    if os != [] {
      var init := os[..|os| - 1];
      RegisterOptionsRegisters(ex, init, k);
      if exists i :: 0 <= i < |init| && HoldsId(init[i], k) {
        var i :| 0 <= i < |init| && HoldsId(init[i], k);
        assert os[i] == init[i];
      }
      if exists i :: 0 <= i < |os| && HoldsId(os[i], k) {
        var i :| 0 <= i < |os| && HoldsId(os[i], k);
        if i < |init| {
          assert init[i] == os[i];
        }
      }
    }
  }

  lemma {:induction false} RegisterOptionsFirstWins(ex: Extraction, os: seq<Option<NodeCreate>>, i: nat, k: NodeId)
    requires i < |os| && HoldsId(os[i], k) && k !in ex.nodes
    requires forall j :: 0 <= j < i ==> !HoldsId(os[j], k)
    ensures k in RegisterOptions(ex, os).nodes && RegisterOptions(ex, os).nodes[k] == os[i].value
    decreases |os|
  {
    var init := os[..|os| - 1];
    if i < |init| {
      assert init[i] == os[i];
      forall j | 0 <= j < i
        ensures !HoldsId(init[j], k)
      {
        assert init[j] == os[j];
      }
      RegisterOptionsFirstWins(ex, init, i, k);
    } else {
      forall j | 0 <= j < |init|
        ensures !HoldsId(init[j], k)
      {
        assert init[j] == os[j];
      }
      RegisterOptionsRegisters(ex, init, k);
    }
  }

  lemma RegisterOptionsMapStep<A>(f: A -> Option<NodeCreate>, ex: Extraction, s: seq<A>, x: A)
    ensures RegisterOptions(ex, MapSeq(f, s + [x])) == RegisterOption(RegisterOptions(ex, MapSeq(f, s)), f(x))
  {
    var m := MapSeq(f, s + [x]);
    MapSeqAppend(f, s, [x]);
    assert MapSeq(f, [x]) == [f(x)];
    assert m[..|m| - 1] == MapSeq(f, s);
  }

  /** One more entity: the loop body registers its node, if it is kept. */
  lemma ApplyEntitiesStep(ex: Extraction, es: seq<Entity>, e: Entity)
    ensures ApplyEntities(ex, es + [e]) == RegisterOption(ApplyEntities(ex, es), EntityNodeOf(e))
  {
    RegisterOptionsMapStep(EntityNodeOf, ex, es, e);
  }

  /** The entity loop adds no edge, keeps what was registered before it, and keeps the state well formed. */
  lemma ApplyEntitiesKeeps(ex: Extraction, es: seq<Entity>)
    ensures ApplyEntities(ex, es).edges == ex.edges
    ensures forall k :: k in ex.nodes ==> k in ApplyEntities(ex, es).nodes && ApplyEntities(ex, es).nodes[k] == ex.nodes[k]
    ensures WellFormed(ex) ==> WellFormed(ApplyEntities(ex, es))
  {
    RegisterOptionsKeeps(ex, MapSeq(EntityNodeOf, es));
  }

  /** Entity `e` names node `k`: it is kept and cleans to `k`. */
  predicate Names(e: Entity, k: NodeId) {
    KeptEntity(e) && CleanNodeId(e.text) == k
  }

  lemma NamesHeld(es: seq<Entity>, k: NodeId)
    ensures forall i :: 0 <= i < |es| ==> (Names(es[i], k) <==> HoldsId(MapSeq(EntityNodeOf, es)[i], k))
  {
    forall i | 0 <= i < |es|
      ensures Names(es[i], k) <==> HoldsId(MapSeq(EntityNodeOf, es)[i], k)
    {
      assert MapSeq(EntityNodeOf, es)[i] == EntityNodeOf(es[i]);
    }
  }

  /** The entity loop registers an id exactly when some kept entity names it. */
  lemma ApplyEntitiesRegisters(ex: Extraction, es: seq<Entity>, k: NodeId)
    requires k !in ex.nodes
    ensures k in ApplyEntities(ex, es).nodes <==> exists i :: 0 <= i < |es| && Names(es[i], k)
  {
    var os := MapSeq(EntityNodeOf, es);
    RegisterOptionsRegisters(ex, os, k);
    NamesHeld(es, k);
    if exists i :: 0 <= i < |os| && HoldsId(os[i], k) {
      var i :| 0 <= i < |os| && HoldsId(os[i], k);
      assert Names(es[i], k);
    }
  }

  /** The node registered under `k` comes from the first entity that names `k`. */
  lemma ApplyEntitiesFirstWins(ex: Extraction, es: seq<Entity>, i: nat)
    requires i < |es| && Names(es[i], CleanNodeId(es[i].text))
    requires CleanNodeId(es[i].text) !in ex.nodes
    requires forall j :: 0 <= j < i ==> !Names(es[j], CleanNodeId(es[i].text))
    ensures CleanNodeId(es[i].text) in ApplyEntities(ex, es).nodes
    ensures ApplyEntities(ex, es).nodes[CleanNodeId(es[i].text)] == EntityNode(es[i], CleanNodeId(es[i].text))
  {
    var k := CleanNodeId(es[i].text);
    var os := MapSeq(EntityNodeOf, es);
    NamesHeld(es, k);
    assert os[i] == EntityNodeOf(es[i]);
    RegisterOptionsFirstWins(ex, os, i, k);
  }

  /**
   * The relation loop appends exactly the given edges, keeps every node
   * registered before it, registers only concept nodes, and keeps the
   * state well formed.
   */
  lemma AddEdgesKeeps(ex: Extraction, es: seq<EdgeCreate>)
    ensures AddEdges(ex, es).edges == ex.edges + es
    ensures forall k :: k in ex.nodes ==> k in AddEdges(ex, es).nodes && AddEdges(ex, es).nodes[k] == ex.nodes[k]
    ensures forall k :: k in AddEdges(ex, es).nodes && k !in ex.nodes ==> AddEdges(ex, es).nodes[k] == ConceptNode(k)
    ensures WellFormed(ex) ==> WellFormed(AddEdges(ex, es))
  {
    AddEdgesEdges(ex, es);
    AddEdgesKeepsNodes(ex, es);
    AddEdgesConcepts(ex, es);
    AddEdgesWellFormed(ex, es);
  }

  lemma {:induction false} AddEdgesEdges(ex: Extraction, es: seq<EdgeCreate>)
    ensures AddEdges(ex, es).edges == ex.edges + es
    decreases |es|
  {
    if es != [] {
      var init := es[..|es| - 1];
      AddEdgesEdges(ex, init);
      ConnectKeeps(AddEdges(ex, init), es[|es| - 1]);
      assert init + [es[|es| - 1]] == es;
    }
  }

  lemma {:induction false} AddEdgesKeepsNodes(ex: Extraction, es: seq<EdgeCreate>)
    ensures forall k :: k in ex.nodes ==> k in AddEdges(ex, es).nodes && AddEdges(ex, es).nodes[k] == ex.nodes[k]
    decreases |es|
  {
    if es != [] {
      var init := es[..|es| - 1];
      AddEdgesKeepsNodes(ex, init);
      ConnectKeeps(AddEdges(ex, init), es[|es| - 1]);
    }
  }

  lemma {:induction false} AddEdgesConcepts(ex: Extraction, es: seq<EdgeCreate>)
    ensures forall k :: k in AddEdges(ex, es).nodes && k !in ex.nodes ==> AddEdges(ex, es).nodes[k] == ConceptNode(k)
    decreases |es|
  {
    if es != [] {
      var init := es[..|es| - 1];
      AddEdgesConcepts(ex, init);
      AddEdgesKeepsNodes(ex, init);
      ConnectKeeps(AddEdges(ex, init), es[|es| - 1]);
    }
  }

  lemma {:induction false} AddEdgesWellFormed(ex: Extraction, es: seq<EdgeCreate>)
    ensures WellFormed(ex) ==> WellFormed(AddEdges(ex, es))
    decreases |es|
  {
    if es != [] {
      AddEdgesWellFormed(ex, es[..|es| - 1]);
      ConnectKeeps(AddEdges(ex, es[..|es| - 1]), es[|es| - 1]);
    }
  }

  /** Both endpoints of every edge are registered nodes. */
  lemma {:induction false} AddEdgesEndpoints(ex: Extraction, es: seq<EdgeCreate>)
    ensures forall e :: e in es ==> e.source in AddEdges(ex, es).nodes && e.target in AddEdges(ex, es).nodes
    decreases |es|
  {
    if es != [] {
      var init := es[..|es| - 1];
      AddEdgesEndpoints(ex, init);
      ConnectKeeps(AddEdges(ex, init), es[|es| - 1]);
      assert es == init + [es[|es| - 1]];
    }
  }

  /**
   * What `extract_structured_data` returns: a well-formed node table whose
   * nodes are either the first entity naming them or concept nodes, and the
   * kept relations' edges, each between two registered nodes.
   */
  lemma ExtractedFacts(doc: Doc)
    ensures WellFormed(Extracted(doc))
    ensures Extracted(doc).edges == EdgesOf(Relations(doc.tokens))
    ensures forall e :: e in Extracted(doc).edges ==> e.source in Extracted(doc).nodes && e.target in Extracted(doc).nodes
    ensures forall k :: k in Extracted(doc).nodes ==>
      Extracted(doc).nodes[k] == ConceptNode(k) || exists i :: 0 <= i < |doc.ents| && Names(doc.ents[i], k)
  {
    var ents := ApplyEntities(Fresh, doc.ents);
    ApplyEntitiesKeeps(Fresh, doc.ents);
    AddEdgesKeeps(ents, EdgesOf(Relations(doc.tokens)));
    AddEdgesEndpoints(ents, EdgesOf(Relations(doc.tokens)));
    forall k | k in Extracted(doc).nodes && Extracted(doc).nodes[k] != ConceptNode(k)
      ensures exists i :: 0 <= i < |doc.ents| && Names(doc.ents[i], k)
    {
      ApplyEntitiesRegisters(Fresh, doc.ents, k);
    }
  }

  /** Connecting two runs of edges one after the other is connecting their concatenation. */
  lemma {:induction false} AddEdgesAppend(ex: Extraction, a: seq<EdgeCreate>, b: seq<EdgeCreate>)
    ensures AddEdges(ex, a + b) == AddEdges(AddEdges(ex, a), b)
    decreases |b|
  {
    if b != [] {
      var init := b[..|b| - 1];
      AddEdgesAppend(ex, a, init);
      assert (a + b)[..|a + b| - 1] == a + init;
      assert (a + b)[|a + b| - 1] == b[|b| - 1];
      assert AddEdges(ex, a + b) == Connect(AddEdges(ex, a + init), b[|b| - 1]);
      assert AddEdges(AddEdges(ex, a), b) == Connect(AddEdges(AddEdges(ex, a), init), b[|b| - 1]);
    } else {
      assert a + b == a;
    }
  }

  /** `list(nodes.values())`: the nodes in the order their ids were first registered. */
  function NodeList(ex: Extraction): (r: seq<NodeCreate>)
    requires WellFormed(ex)
    ensures forall n :: n in r <==> exists k :: k in ex.nodes && ex.nodes[k] == n
    ensures forall i, j :: 0 <= i < j < |r| ==> r[i].id != r[j].id
  {
    var r := seq(|ex.order|, i requires 0 <= i < |ex.order| => ex.nodes[ex.order[i]]);
    forall n | exists k :: k in ex.nodes && ex.nodes[k] == n
      ensures n in r
    {
      var k :| k in ex.nodes && ex.nodes[k] == n;
      var i :| 0 <= i < |ex.order| && ex.order[i] == k;
      assert r[i] == n;
    }
    r
  }

  /** The text `preprocess` hands on after format handling: the first applicable handler's output, or the text itself. */
  function Dispatched(hs: seq<Handler>, text: string, process: (Handler, string) -> string): string {
    match FirstApplicable(hs, text)
    case None => text
    case Some(i) => process(hs[i], text)
  }

  // ---------------------------------------------------------------------
  // The pipeline

  /** `expand_noun_phrase`, recursive with a loop over the children. */
  method ExpandNounPhrase(t: Token) returns (items: seq<Token>)
    ensures items == Expand(t)
    decreases t
  {
    items := [t];
    for i := 0 to |t.children|
      invariant items + ExpandFrom(t, i) == Expand(t)
    {
      var child := t.children[i];
      if child.dep == "conj" {
        var more := ExpandNounPhrase(child);
        items := items + more;
      }
    }
  }

  /** The subjects loop and its fallback to the head of a clause. */
  method CollectSubjects(dt: DocToken) returns (subjects: seq<Token>)
    ensures subjects == Subjects(dt)
  {
    var cs := dt.tok.children;
    subjects := [];
    for i := 0 to |cs|
      invariant subjects == SubjectsFrom(cs[..i])
    {
      assert cs[..i + 1][..i] == cs[..i];
      var child := cs[i];
      if child.dep in SubjectDeps {
        var more := ExpandNounPhrase(child);
        subjects := subjects + more;
      }
    }
    assert cs[..|cs|] == cs;
    if subjects == [] && dt.tok.dep in ClauseDeps {
      subjects := subjects + [dt.head];
    }
  }

  /** The `pobj` grandchildren of a `prep` or `agent` child. */
  method CollectPobjs(c: Token) returns (objects: seq<Token>)
    ensures objects == PobjsFrom(c.children)
  {
    var gs := c.children;
    objects := [];
    for i := 0 to |gs|
      invariant objects == PobjsFrom(gs[..i])
    {
      assert gs[..i + 1][..i] == gs[..i];
      var grandChild := gs[i];
      if grandChild.dep == "pobj" {
        var more := ExpandNounPhrase(grandChild);
        objects := objects + more;
      }
    }
    assert gs[..|gs|] == gs;
  }

  lemma ChildObjectsParts(c: Token, before: seq<Token>, direct: seq<Token>, viaPrep: seq<Token>, after: seq<Token>)
    requires direct == before + (if c.dep in ObjectDeps then Expand(c) else [])
    requires viaPrep == direct + (if c.dep == "prep" then PobjsFrom(c.children) else [])
    requires after == viaPrep + (if c.dep == "agent" then PobjsFrom(c.children) else [])
    ensures after == before + ChildObjects(c)
  {
  }

  /** The objects loop. */
  method CollectObjects(t: Token) returns (objects: seq<Token>)
    ensures objects == ObjectsFrom(t.children)
  {
    var cs := t.children;
    objects := [];
    for i := 0 to |cs|
      invariant objects == ObjectsFrom(cs[..i])
    {
      assert cs[..i + 1][..i] == cs[..i];
      var child := cs[i];
      ghost var before := objects;
      if child.dep in ObjectDeps {
        var more := ExpandNounPhrase(child);
        objects := objects + more;
      }
      ghost var direct := objects;
      if child.dep == "prep" {
        var more := CollectPobjs(child);
        objects := objects + more;
      }
      ghost var viaPrep := objects;
      if child.dep == "agent" {
        var more := CollectPobjs(child);
        objects := objects + more;
      }
      ChildObjectsParts(child, before, direct, viaPrep, objects);
    }
    assert cs[..|cs|] == cs;
  }

  /** One more object: the state after it is the state before it with that relation's edge, if any, connected. */
  lemma RowStep(ex0: Extraction, before: Extraction, s: Token, objects: seq<Token>, j: nat, verb: string)
    requires j < |objects|
    requires before == AddEdges(ex0, EdgesOf(Row(s, objects[..j], verb)))
    ensures AddEdges(ex0, EdgesOf(Row(s, objects[..j + 1], verb))) ==
      AddEdges(before, OptionList(EdgeOf(Relation(s.text, objects[j].text, verb))))
  {
    var r := Relation(s.text, objects[j].text, verb);
    RowEdgesStep(s, objects, j, verb);
    AddEdgesAppend(ex0, EdgesOf(Row(s, objects[..j], verb)), OptionList(EdgeOf(r)));
  }

  /** One more object adds that relation's edge, if any, to the row's edges. */
  lemma RowEdgesStep(s: Token, objects: seq<Token>, j: nat, verb: string)
    requires j < |objects|
    ensures EdgesOf(Row(s, objects[..j + 1], verb)) ==
      EdgesOf(Row(s, objects[..j], verb)) + OptionList(EdgeOf(Relation(s.text, objects[j].text, verb)))
  {
    var r := Relation(s.text, objects[j].text, verb);
    var prev := Row(s, objects[..j], verb);
    assert objects[..j + 1][..j] == objects[..j];
    assert Row(s, objects[..j + 1], verb) == prev + [r];
    EdgesOfAppend(prev, [r]);
    SomesOfMapSingle(EdgeOf, r);
  }

  lemma AddEdgesOption(ex: Extraction, o: Option<EdgeCreate>)
    ensures AddEdges(ex, OptionList(o)) == match o case None => ex case Some(e) => Connect(ex, e)
  {
    if o.Some? {
      assert [o.value][..0] == [];
    }
  }

  /** The inner loop of step 3: one subject against every object. */
  method LinkRow(ex0: Extraction, s: Token, objects: seq<Token>, verb: string) returns (ex: Extraction)
    ensures ex == AddEdges(ex0, EdgesOf(Row(s, objects, verb)))
  {
    ex := ex0;
    for j := 0 to |objects|
      invariant ex == AddEdges(ex0, EdgesOf(Row(s, objects[..j], verb)))
    {
      ghost var before := ex;
      ghost var r := Relation(s.text, objects[j].text, verb);
      RowStep(ex0, before, s, objects, j, verb);
      AddEdgesOption(before, EdgeOf(r));
      var sText := CleanNodeId(s.text);
      var oText := CleanNodeId(objects[j].text);
      sText := StripArticle(sText);
      oText := StripArticle(oText);
      if |sText| < 2 || |oText| < 2 {
        assert EdgeOf(r) == None;
        continue;
      }
      if IsStopConcept(sText) || IsStopConcept(oText) {
        assert EdgeOf(r) == None;
        continue;
      }
      assert EdgeOf(r) == Some(EdgeCreate(sText, oText, verb, 1.0));
      if sText !in ex.nodes {
        ex := ex.(order := ex.order + [sText], nodes := ex.nodes[sText := NodeCreate(sText, sText, map["label" := Str("CONCEPT")])]);
      }
      if oText !in ex.nodes {
        ex := ex.(order := ex.order + [oText], nodes := ex.nodes[oText := NodeCreate(oText, oText, map["label" := Str("CONCEPT")])]);
      }
      ex := ex.(edges := ex.edges + [EdgeCreate(sText, oText, verb, 1.0)]);
      assert ex == Connect(before, EdgeCreate(sText, oText, verb, 1.0));
    }
    assert objects[..|objects|] == objects;
  }

  /** Step 3: every subject against every object. */
  method LinkPairs(ex0: Extraction, subjects: seq<Token>, objects: seq<Token>, verb: string) returns (ex: Extraction)
    ensures ex == AddEdges(ex0, EdgesOf(Cross(subjects, objects, verb)))
  {
    ex := ex0;
    for i := 0 to |subjects|
      invariant ex == AddEdges(ex0, EdgesOf(Cross(subjects[..i], objects, verb)))
    {
      assert subjects[..i + 1][..i] == subjects[..i];
      EdgesOfAppend(Cross(subjects[..i], objects, verb), Row(subjects[i], objects, verb));
      AddEdgesAppend(ex0, EdgesOf(Cross(subjects[..i], objects, verb)), EdgesOf(Row(subjects[i], objects, verb)));
      ex := LinkRow(ex, subjects[i], objects, verb);
    }
    assert subjects[..|subjects|] == subjects;
  }

  /** The loop over the recognised entities: each kept entity's node, the first one per id. */
  method RegisterEntities(ents: seq<Entity>) returns (ex: Extraction)
    ensures ex == ApplyEntities(Fresh, ents)
  {
    ex := Fresh;
    for i := 0 to |ents|
      invariant ex == ApplyEntities(Fresh, ents[..i])
    {
      var ent := ents[i];
      assert ents[..i + 1] == ents[..i] + [ent];
      ApplyEntitiesStep(Fresh, ents[..i], ent);
      if ent.kind in ExcludedLabels {
        continue;
      }
      var eText := CleanNodeId(ent.text);
      if |eText| < 2 {
        continue;
      }
      ghost var before := ex;
      if eText !in ex.nodes {
        ex := ex.(order := ex.order + [eText], nodes := ex.nodes[eText := NodeCreate(eText, ent.kind + ": " + ent.text, map["label" := Str(ent.kind)])]);
      }
      assert ex == Register(before, EntityNode(ent, eText));
    }
    assert ents[..|ents|] == ents;
  }

  /** The loop over the tokens: for every verb, its subjects linked to its objects. */
  method LinkVerbs(entities: Extraction, tokens: seq<DocToken>) returns (ex: Extraction)
    ensures ex == AddEdges(entities, EdgesOf(Relations(tokens)))
  {
    ex := entities;
    for ti := 0 to |tokens|
      invariant ex == AddEdges(entities, EdgesOf(Relations(tokens[..ti])))
    {
      var token := tokens[ti];
      assert tokens[..ti + 1][..ti] == tokens[..ti];
      EdgesOfAppend(Relations(tokens[..ti]), VerbRelations(token));
      AddEdgesAppend(entities, EdgesOf(Relations(tokens[..ti])), EdgesOf(VerbRelations(token)));
      if IsVerb(token.tok) {
        var subjects := CollectSubjects(token);
        var objects := CollectObjects(token.tok);
        ex := LinkPairs(ex, subjects, objects, token.tok.base);
      }
    }
    assert tokens[..|tokens|] == tokens;
  }

  /**
   * The ingestion pipeline. The language model, the text repair step and
   * the handlers' `process` methods are library code and enter as
   * parameters.
   */
  class IngestionPipeline {
    const nlp: string -> Doc
    const fixText: string -> string
    const process: (Handler, string) -> string
    const registry: HandlerRegistry

    /** Registers the HTML and JSON handlers, then the unstructured one when its library is available. */
    constructor (nlp: string -> Doc, fixText: string -> string, process: (Handler, string) -> string, unstructuredAvailable: bool)
      ensures this.nlp == nlp && this.fixText == fixText && this.process == process
      ensures fresh(registry) && registry.handlers == PipelineHandlers(unstructuredAvailable)
    {
      this.nlp := nlp;
      this.fixText := fixText;
      this.process := process;
      registry := new HandlerRegistry();
      new;
      registry.Register(HtmlHandler);
      registry.Register(JsonHandler);
      if unstructuredAvailable {
        registry.Register(UnstructuredHandler(true));
      }
    }

    /**
     * `preprocess`: format handling by the first applicable handler, text
     * repair, removal of bracketed spans, and whitespace collapsed to
     * single spaces with none at the ends.
     */
    method Preprocess(text: string) returns (r: string)
      ensures r == CleanText(fixText(Dispatched(registry.handlers, text, process)))
      ensures r == [] || (!IsSpace(r[0]) && !IsSpace(r[|r| - 1]))
      ensures forall i :: 0 <= i < |r| - 1 ==> !(IsSpace(r[i]) && IsSpace(r[i + 1]))
    {
      var handler := registry.Find(text);
      var t := text;
      if handler.Some? {
        t := process(handler.value, t);
      }
      t := fixText(t);
      t := StripSpans(t, '[', ']');
      r := CollapseWhitespace(t);
      CleanTextShape(fixText(Dispatched(registry.handlers, text, process)));
    }

    /**
     * `extract_structured_data`: the entity nodes, then, for every verb,
     * an edge from each subject to each object that survives the filters,
     * registering missing endpoints as concept nodes.
     */
    method ExtractStructuredData(text: string) returns (nodes: seq<NodeCreate>, edges: seq<EdgeCreate>)
      ensures var doc := nlp(CleanText(fixText(Dispatched(registry.handlers, text, process))));
        && WellFormed(Extracted(doc))
        && nodes == NodeList(Extracted(doc))
        && edges == EdgesOf(Relations(doc.tokens))
    {
      var cleanedText := Preprocess(text);
      var doc := nlp(cleanedText);
      var ex := RegisterEntities(doc.ents);
      ex := LinkVerbs(ex, doc.tokens);
      ExtractedFacts(doc);
      nodes := NodeList(ex);
      edges := ex.edges;
    }
  }

  // ---------------------------------------------------------------------
  // Worked examples

  /** A word that only begins like an article is kept. */
  lemma KeepsArticleLikeWord()
    ensures StripArticle("Theory") == "Theory"
  {
    var s := "Theory";
    assert !IsSpace(s[3]) && !IsSpace(s[1]) && !IsSpace(s[2]);
  }
}
