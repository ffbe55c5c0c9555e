/** The incremental XML tokenizer (fallbacks/lxp.lua): input arrives in pieces, and a coroutine
    suspends wherever a token is incomplete.

    How a tag is split into name and attributes, and how entities are replaced, are inputs: the
    results hold for every such syntax. Either may fail, which ends the parser.
 */
module XmlTokenizer {
  import opened Wrappers

  datatype Tag = Tag(name: string, attrs: map<string, string>)

  /** parse_tag and xml_unescape, and the separator between namespace and local name. */
  datatype Syntax = Syntax(parseTag: string -> Option<Tag>, unescape: string -> Option<string>, separator: string)

  datatype Event =
    | Start(name: string, attrs: set<(string, string)>)
    | End(tag: Option<string>)
    | Text(text: string)

  // ---- Namespaces ----

  /** The prefixes an element binds, and its resolved name; the outermost frame has none. */
  datatype Frame = Frame(tag: Option<string>, bindings: map<string, string>)

  const ROOT := Frame(None, map["xml" := "http://www.w3.org/XML/1998/namespace"])

  /** What a prefix stands for: the innermost binding counts. */
  function Binding(stack: seq<Frame>, prefix: string): Option<string> {
    if stack == [] then None
    else if prefix in stack[|stack| - 1].bindings then Some(stack[|stack| - 1].bindings[prefix])
    else Binding(stack[..|stack| - 1], prefix)
  }

  /** The position of the first `c`. */
  function Find(s: string, c: char): (r: Option<nat>)
    ensures r.None? <==> c !in s
    ensures r.Some? ==> r.value < |s| && s[r.value] == c && c !in s[..r.value]
  {
    if s == [] then None
    else if s[0] == c then Some(0)
    else
      var r := Find(s[1..], c);
      if r.None? then None
      else
        assert s[..r.value + 1] == [s[0]] + s[1..][..r.value];
        Some(r.value + 1)
  }

  /** apply_ns */
  function Resolve(stack: seq<Frame>, separator: string, name: string, useDefault: bool): string {
    var colon := Find(name, ':');
    if colon.Some? && Binding(stack, name[..colon.value]).Some? then
      Binding(stack, name[..colon.value]).value + separator + name[colon.value + 1..]
    else if useDefault && Binding(stack, "").Some? then
      Binding(stack, "").value + separator + name
    else name
  }

  /** The prefix that an attribute declares, if it is a namespace declaration. */
  function Declares(attr: string): Option<string> {
    if attr == "xmlns" then Some("")
    else if "xmlns:" <= attr then Some(attr[6..])
    else None
  }

  /** push: the frame of an element and the event that announces it. */
  function Push(sx: Syntax, stack: seq<Frame>, tag: Tag): (r: (seq<Frame>, Event))
    ensures r.1.Start? && |r.0| == |stack| + 1 && r.0[..|stack|] == stack && r.0[|stack|].tag == Some(r.1.name)
  {
    var bindings := map p | p in (set a | a in tag.attrs && Declares(a).Some? :: Declares(a).value) :: DeclaredValue(tag.attrs, p);
    var inner := stack + [Frame(None, bindings)];
    var attrs := set a | a in tag.attrs && Declares(a).None? :: (Resolve(inner, sx.separator, a, false), tag.attrs[a]);
    var name := Resolve(inner, sx.separator, tag.name, true);
    (stack + [Frame(Some(name), bindings)], Start(name, attrs))
  }

  /** The namespace an attribute list declares for a prefix. */
  function DeclaredValue(attrs: map<string, string>, prefix: string): string
    requires exists a :: a in attrs && Declares(a) == Some(prefix)
  {
    DeclarationShape(attrs, prefix);
    if prefix == "" && "xmlns" in attrs then attrs["xmlns"] else attrs["xmlns:" + prefix]
  }

  lemma DeclarationShape(attrs: map<string, string>, prefix: string)
    requires exists a :: a in attrs && Declares(a) == Some(prefix)
    ensures (prefix == "" && "xmlns" in attrs) || "xmlns:" + prefix in attrs
  {
    var a :| a in attrs && Declares(a) == Some(prefix);
    if a != "xmlns" {
      assert a == "xmlns:" + prefix;
    }
  }

  // ---- What a resolved name is ----

  /** The frame at `i` is the innermost one that binds the prefix. */
  ghost predicate Innermost(frames: seq<Frame>, i: nat, prefix: string) {
    && i < |frames| && prefix in frames[i].bindings
    && forall j :: i < j < |frames| ==> prefix !in frames[j].bindings
  }

  ghost predicate Unbound(frames: seq<Frame>, prefix: string) {
    forall j :: 0 <= j < |frames| ==> prefix !in frames[j].bindings
  }

  lemma {:induction false} BindingIsInnermost(frames: seq<Frame>, prefix: string)
    ensures forall i: nat :: Innermost(frames, i, prefix) ==> Binding(frames, prefix) == Some(frames[i].bindings[prefix])
    ensures Unbound(frames, prefix) ==> Binding(frames, prefix) == None
  {
    if frames != [] {
      var n := |frames| - 1;
      BindingIsInnermost(frames[..n], prefix);
      forall i: nat | Innermost(frames, i, prefix)
        ensures Binding(frames, prefix) == Some(frames[i].bindings[prefix])
      {
        if i < n {
          assert prefix !in frames[n].bindings;
          assert Innermost(frames[..n], i, prefix);
        }
      }
    }
  }

  /** The first `c` after text without one. */
  lemma {:induction false} FindAfter(text: string, c: char, rest: string)
    requires c !in text
    ensures Find(text + [c] + rest, c) == Some(|text|)
  {
    var s := text + [c] + rest;
    if text != "" {
      assert s[1..] == text[1..] + [c] + rest;
      FindAfter(text[1..], c, rest);
    }
  }

  /** A name with a prefix is split at its first colon. */
  lemma FindColon(prefix: string, rest: string)
    requires ':' !in prefix
    ensures var name := prefix + ":" + rest;
      Find(name, ':') == Some(|prefix|) && name[..|prefix|] == prefix && name[|prefix| + 1..] == rest
  {
    FindAfter(prefix, ':', rest);
  }

  /** The namespaces in force inside an element: those outside it, and those that it declares itself. */
  function Inside(sx: Syntax, stack: seq<Frame>, tag: Tag): seq<Frame> {
    Push(sx, stack, tag).0
  }

  /** An element declares a prefix by an attribute `xmlns:prefix`, and the default namespace by `xmlns`. */
  lemma DeclaredInside(sx: Syntax, stack: seq<Frame>, tag: Tag, prefix: string)
    requires prefix != ""
    ensures var own := Inside(sx, stack, tag)[|stack|].bindings;
      && (prefix in own <==> "xmlns:" + prefix in tag.attrs)
      && (prefix in own ==> own[prefix] == tag.attrs["xmlns:" + prefix])
      && ("xmlns" in tag.attrs ==> "" in own && own[""] == tag.attrs["xmlns"])
      && ("xmlns" !in tag.attrs && "xmlns:" !in tag.attrs ==> "" !in own)
  {
    var a := "xmlns:" + prefix;
    assert a[6..] == prefix && "xmlns:" <= a;
    assert Declares(a) == Some(prefix) && Declares("xmlns") == Some("");
    forall b | b in tag.attrs && Declares(b) == Some(prefix) ensures b == a {
      assert b == "xmlns:" + b[6..];
    }
    forall b | b in tag.attrs && Declares(b) == Some("") ensures b == "xmlns" || b == "xmlns:" {
      assert b != "xmlns" ==> b == "xmlns:" + b[6..];
    }
  }

  /** The namespaces inside an element do not depend on its own name in the frame. */
  lemma SameBindings(a: seq<Frame>, b: seq<Frame>, prefix: string)
    requires |a| == |b| && forall i :: 0 <= i < |a| ==> a[i].bindings == b[i].bindings
    ensures Binding(a, prefix) == Binding(b, prefix)
    decreases a
  {
    if a != [] {
      SameBindings(a[..|a| - 1], b[..|b| - 1], prefix);
    }
  }

  /** So a name is resolved by the namespaces inside the element. */
  lemma ResolvedInside(sx: Syntax, stack: seq<Frame>, tag: Tag)
    ensures Push(sx, stack, tag).1.name == Resolve(Inside(sx, stack, tag), sx.separator, tag.name, true)
    ensures Push(sx, stack, tag).1.attrs ==
      set a | a in tag.attrs && a != "xmlns" && !("xmlns:" <= a) ::
        (Resolve(Inside(sx, stack, tag), sx.separator, a, false), tag.attrs[a])
  {
    var frames := Inside(sx, stack, tag);
    var bindings := frames[|stack|].bindings;
    var inner := stack + [Frame(None, bindings)];
    forall prefix: string ensures Binding(inner, prefix) == Binding(frames, prefix) {
      SameBindings(inner, frames, prefix);
    }
    assert forall name, useDefault ::
        Resolve(inner, sx.separator, name, useDefault) == Resolve(frames, sx.separator, name, useDefault);
  }

  /** A tag with a prefix is announced under the innermost namespace bound to that prefix. */
  lemma PrefixedTag(sx: Syntax, stack: seq<Frame>, tag: Tag, prefix: string, local: string, i: nat)
    requires tag.name == prefix + ":" + local && ':' !in prefix
    requires Innermost(Inside(sx, stack, tag), i, prefix)
    ensures Push(sx, stack, tag).1.name == Inside(sx, stack, tag)[i].bindings[prefix] + sx.separator + local
  {
    ResolvedInside(sx, stack, tag);
    FindColon(prefix, local);
    BindingIsInnermost(Inside(sx, stack, tag), prefix);
  }

  /** A tag without a prefix, or with one that is not bound, is announced under the innermost default namespace. */
  lemma DefaultTag(sx: Syntax, stack: seq<Frame>, tag: Tag, i: nat)
    requires Innermost(Inside(sx, stack, tag), i, "")
    requires ':' !in tag.name || exists prefix, local ::
      tag.name == prefix + ":" + local && ':' !in prefix && Unbound(Inside(sx, stack, tag), prefix)
    ensures Push(sx, stack, tag).1.name == Inside(sx, stack, tag)[i].bindings[""] + sx.separator + tag.name
  {
    var frames := Inside(sx, stack, tag);
    ResolvedInside(sx, stack, tag);
    BindingIsInnermost(frames, "");
    if ':' in tag.name {
      var prefix, local :| tag.name == prefix + ":" + local && ':' !in prefix && Unbound(frames, prefix);
      FindColon(prefix, local);
      BindingIsInnermost(frames, prefix);
    }
  }

  /** Without a default namespace such a tag stays as it is. */
  lemma PlainTag(sx: Syntax, stack: seq<Frame>, tag: Tag)
    requires Unbound(Inside(sx, stack, tag), "")
    requires ':' !in tag.name || exists prefix, local ::
      tag.name == prefix + ":" + local && ':' !in prefix && Unbound(Inside(sx, stack, tag), prefix)
    ensures Push(sx, stack, tag).1.name == tag.name
  {
    var frames := Inside(sx, stack, tag);
    ResolvedInside(sx, stack, tag);
    BindingIsInnermost(frames, "");
    if ':' in tag.name {
      var prefix, local :| tag.name == prefix + ":" + local && ':' !in prefix && Unbound(frames, prefix);
      FindColon(prefix, local);
      BindingIsInnermost(frames, prefix);
    }
  }

  /** An attribute without a prefix stays as it is, one with a prefix gets its namespace, and neither takes the
      default namespace. */
  lemma AttributesAnnounced(sx: Syntax, stack: seq<Frame>, tag: Tag, attr: string)
    requires attr in tag.attrs && attr != "xmlns" && !("xmlns:" <= attr)
    ensures ':' !in attr ==> (attr, tag.attrs[attr]) in Push(sx, stack, tag).1.attrs
    ensures forall prefix: string, local: string, i: nat
      {:trigger prefix + ":" + local, Innermost(Inside(sx, stack, tag), i, prefix)} ::
      attr == prefix + ":" + local && ':' !in prefix && Innermost(Inside(sx, stack, tag), i, prefix) ==>
      (Inside(sx, stack, tag)[i].bindings[prefix] + sx.separator + local, tag.attrs[attr]) in Push(sx, stack, tag).1.attrs
  {
    var frames := Inside(sx, stack, tag);
    ResolvedInside(sx, stack, tag);
    assert (Resolve(frames, sx.separator, attr, false), tag.attrs[attr]) in Push(sx, stack, tag).1.attrs;
    forall prefix: string, local: string, i: nat
      {:trigger prefix + ":" + local, Innermost(frames, i, prefix)} |
      attr == prefix + ":" + local && ':' !in prefix && Innermost(frames, i, prefix)
      ensures (frames[i].bindings[prefix] + sx.separator + local, tag.attrs[attr]) in Push(sx, stack, tag).1.attrs
    {
      FindColon(prefix, local);
      BindingIsInnermost(frames, prefix);
    }
  }

  /** Declarations are not announced: there are no more attributes than others. */
  lemma DeclarationsDropped(sx: Syntax, stack: seq<Frame>, tag: Tag, name: string, value: string)
    requires (name, value) in Push(sx, stack, tag).1.attrs
    ensures exists a :: a in tag.attrs && a != "xmlns" && !("xmlns:" <= a) && value == tag.attrs[a] && (':' !in a ==> a == name)
  {
    ResolvedInside(sx, stack, tag);
    var a :| a in tag.attrs && a != "xmlns" && !("xmlns:" <= a) && (name, value) ==
      (Resolve(Inside(sx, stack, tag), sx.separator, a, false), tag.attrs[a]);
  }

  // ---- Tokens ----

  datatype Token = Markup(elem: string) | Chars(text: string)

  /** The first complete token of the input and what follows it. */
  function NextToken(data: string): (r: Option<(Token, string)>)
    ensures r.Some? ==> |r.value.1| < |data|
  {
    if data == "" then None
    else if data[0] == '<' then
      var i := Find(data, '>');
      if i.None? then None else Some((Markup(data[1..i.value]), data[i.value + 1..]))
    else
      var i := Find(data, '<');
      if i.None? then None else Some((Token.Chars(data[..i.value]), data[i.value..]))
  }

  /** The events of one token and the namespaces after it, or nothing if it breaks the parser. */
  function Act(sx: Syntax, stack: seq<Frame>, token: Token): Option<(seq<Event>, seq<Frame>)> {
    match token
    case Chars(text) =>
      var t := sx.unescape(text);
      if t.None? then None else Some(([Text(t.value)], stack))
    case Markup(elem) =>
      if "!" <= elem || "?" <= elem then Some(([], stack))
      else if "/" <= elem then
        if stack == [] then None else Some(([End(stack[|stack| - 1].tag)], stack[..|stack| - 1]))
      else if elem != "" && elem[|elem| - 1] == '/' then
        var tag := sx.parseTag(elem[..|elem| - 1]);
        if tag.None? then None else
        var (inner, start) := Push(sx, stack, tag.value);
        Some(([start, End(inner[|inner| - 1].tag)], inner[..|inner| - 1]))
      else
        var tag := sx.parseTag(elem);
        if tag.None? then None else
        var (inner, start) := Push(sx, stack, tag.value);
        Some(([start], inner))
  }

  /** What a parser remembers between two pieces of input. */
  datatype State = Live(data: string, stack: seq<Frame>) | Dead

  const INITIAL := Live("", [ROOT])

  /** The state a parser is left in, and the events it has emitted meanwhile. */
  datatype Outcome = Outcome(state: State, events: seq<Event>)

  /** Takes up all complete tokens. */
  function Drain(sx: Syntax, data: string, stack: seq<Frame>): (r: Outcome)
    ensures Waiting(r.state)
    decreases |data|
  {
    var next := NextToken(data);
    if next.None? then Outcome(Live(data, stack), []) else
    var acted := Act(sx, stack, next.value.0);
    if acted.None? then Outcome(Dead, []) else
    Prepend(acted.value.0, Drain(sx, next.value.1, acted.value.1))
  }

  function Prepend(events: seq<Event>, r: Outcome): Outcome {
    r.(events := events + r.events)
  }

  /** A parser that is not in the midst of a complete token, as every parser between two pieces. */
  predicate Waiting(s: State) {
    s.Live? ==> NextToken(s.data).None?
  }

  /** One piece of input. */
  function Feed(sx: Syntax, s: State, chunk: string): (r: Outcome)
    ensures Waiting(r.state)
  {
    if s.Dead? then Outcome(Dead, []) else Drain(sx, s.data + chunk, s.stack)
  }

  function FeedAll(sx: Syntax, s: State, chunks: seq<string>): Outcome
    decreases chunks
  {
    if chunks == [] then Outcome(s, []) else
    var r := Feed(sx, s, chunks[0]);
    Prepend(r.events, FeedAll(sx, r.state, chunks[1..]))
  }

  function Join(chunks: seq<string>): string {
    if chunks == [] then "" else chunks[0] + Join(chunks[1..])
  }

  // ---- Chunking does not matter ----

  lemma {:induction false} FindAppend(s: string, t: string, c: char)
    requires Find(s, c).Some?
    ensures Find(s + t, c) == Find(s, c)
  {
    if s[0] != c {
      assert (s + t)[1..] == s[1..] + t;
      FindAppend(s[1..], t, c);
    }
  }

  /** A complete token stays the same when more input follows. */
  lemma TokenAppend(data: string, more: string)
    requires NextToken(data).Some?
    ensures NextToken(data + more) == Some((NextToken(data).value.0, NextToken(data).value.1 + more))
  {
    var c := if data[0] == '<' then '>' else '<';
    FindAppend(data, more, c);
    var i := Find(data, c).value;
    assert (data + more)[i + 1..] == data[i + 1..] + more;
    assert (data + more)[i..] == data[i..] + more;
    assert (data + more)[..i] == data[..i];
    assert i > 0;
    assert (data + more)[1..i] == data[1..i];
  }

  lemma PrependTwice(a: seq<Event>, b: seq<Event>, r: Outcome)
    ensures Prepend(a, Prepend(b, r)) == Prepend(a + b, r)
  {
  }

  lemma PrependNothing(r: Outcome)
    ensures Prepend([], r) == r
  {
  }

  /** Taking up tokens before or after more input arrives makes no difference. */
  lemma {:induction false} DrainAppend(sx: Syntax, data: string, stack: seq<Frame>, more: string)
    ensures var r := Drain(sx, data, stack);
      Drain(sx, data + more, stack) == Prepend(r.events, Feed(sx, r.state, more))
    decreases |data|
  {
    var next := NextToken(data);
    PrependNothing(Feed(sx, Drain(sx, data, stack).state, more));
    if next.Some? {
      TokenAppend(data, more);
      var acted := Act(sx, stack, next.value.0);
      if acted.Some? {
        var rest, inner := next.value.1, acted.value.1;
        DrainAppend(sx, rest, inner, more);
        var r := Drain(sx, rest, inner);
        PrependTwice(acted.value.0, r.events, Feed(sx, r.state, more));
      }
    }
  }

  lemma Associative(a: string, b: string, c: string)
    ensures a + b + c == a + (b + c)
  {
  }

  lemma FeedAppend(sx: Syntax, s: State, chunk: string, more: string)
    ensures var r := Feed(sx, s, chunk);
      Feed(sx, s, chunk + more) == Prepend(r.events, Feed(sx, r.state, more))
  {
    if s.Live? {
      DrainAppend(sx, s.data + chunk, s.stack, more);
      Associative(s.data, chunk, more);
    } else {
      PrependNothing(Outcome(Dead, []));
    }
  }

  /** For every way of cutting the input into pieces, the events and the state left
      are those of the input in one piece. */
  lemma {:induction false} ChunkingIsInvisible(sx: Syntax, s: State, chunks: seq<string>)
    requires Waiting(s)
    ensures FeedAll(sx, s, chunks) == Feed(sx, s, Join(chunks))
    decreases chunks
  {
    if chunks == [] {
      if s.Live? {
        assert s.data + "" == s.data;
      }
    } else {
      ChunkingIsInvisible(sx, Feed(sx, s, chunks[0]).state, chunks[1..]);
      FeedAppend(sx, s, chunks[0], Join(chunks[1..]));
    }
  }

  // ---- Documents ----

  /** A piece of a document: texts, elements, empty elements, and comments or processing instructions. Tags are given as
      they are written between the angle brackets. */
  datatype Content =
    | Nothing
    | Chars(text: string, rest: Content)
    | Element(tag: string, inner: Content, closing: string, rest: Content)
    | EmptyElement(tag: string, rest: Content)
    | Ignored(tag: string, rest: Content)

  function Written(c: Content): string {
    match c
    case Nothing => ""
    case Chars(text, rest) => text + Written(rest)
    case Element(tag, inner, closing, rest) => "<" + tag + ">" + (Written(inner) + ("</" + closing + ">" + Written(rest)))
    case EmptyElement(tag, rest) => "<" + (tag + "/") + ">" + Written(rest)
    case Ignored(tag, rest) => "<" + tag + ">" + Written(rest)
  }

  /** A tag that opens an element. */
  ghost predicate Opens(sx: Syntax, tag: string) {
    && tag != "" && '>' !in tag && tag[0] != '!' && tag[0] != '?' && tag[0] != '/' && tag[|tag| - 1] != '/'
    && sx.parseTag(tag).Some?
  }

  /** Texts are not empty, do not contain or touch each other, and can be unescaped; tags can be parsed. */
  ghost predicate WellWritten(sx: Syntax, c: Content) {
    match c
    case Nothing => true
    case Chars(text, rest) => text != "" && '<' !in text && sx.unescape(text).Some? && !rest.Chars? && WellWritten(sx, rest)
    case Element(tag, inner, closing, rest) => Opens(sx, tag) && '>' !in closing && WellWritten(sx, inner) && WellWritten(sx, rest)
    case EmptyElement(tag, rest) => Opens(sx, tag) && WellWritten(sx, rest)
    case Ignored(tag, rest) => tag != "" && '>' !in tag && (tag[0] == '!' || tag[0] == '?') && WellWritten(sx, rest)
  }

  /** What a reader of the document should be told. */
  ghost function EventsOf(sx: Syntax, stack: seq<Frame>, c: Content): seq<Event>
    requires WellWritten(sx, c)
    decreases c
  {
    match c
    case Nothing => []
    case Chars(text, rest) => [Text(sx.unescape(text).value)] + EventsOf(sx, stack, rest)
    case Element(tag, inner, _, rest) =>
      var (frames, start) := Push(sx, stack, sx.parseTag(tag).value);
      [start] + (EventsOf(sx, frames, inner) + ([End(Some(start.name))] + EventsOf(sx, stack, rest)))
    case EmptyElement(tag, rest) =>
      var start := Push(sx, stack, sx.parseTag(tag).value).1;
      [start, End(Some(start.name))] + EventsOf(sx, stack, rest)
    case Ignored(_, rest) => EventsOf(sx, stack, rest)
  }

  /** A tag is one token. */
  lemma TagToken(tag: string, more: string)
    requires '>' !in tag
    ensures NextToken("<" + tag + ">" + more) == Some((Token.Markup(tag), more))
  {
    var data := "<" + tag + ">" + more;
    FindAfter("<" + tag, '>', more);
    assert data == ("<" + tag) + [">"[0]] + more;
    assert data[1..|tag| + 1] == tag && data[|tag| + 2..] == more;
  }

  /** So is a text up to the next tag. */
  lemma TextToken(text: string, more: string)
    requires text != "" && '<' !in text && more != "" && more[0] == '<'
    ensures NextToken(text + more) == Some((Token.Chars(text), more))
  {
    assert text + more == text + ['<'] + more[1..];
    FindAfter(text, '<', more[1..]);
    assert text[0] in text;
    assert (text + more)[..|text|] == text && (text + more)[|text|..] == more;
  }

  /** One token more. */
  lemma DrainStep(sx: Syntax, data: string, stack: seq<Frame>, token: Token, rest: string, events: seq<Event>, stack': seq<Frame>)
    requires NextToken(data) == Some((token, rest)) && Act(sx, stack, token) == Some((events, stack'))
    ensures Drain(sx, data, stack) == Prepend(events, Drain(sx, rest, stack'))
  {
  }

  lemma TagStep(sx: Syntax, tag: string, more: string, stack: seq<Frame>)
    requires Opens(sx, tag)
    ensures var (frames, start) := Push(sx, stack, sx.parseTag(tag).value);
      Drain(sx, "<" + tag + ">" + more, stack) == Prepend([start], Drain(sx, more, frames))
  {
    var (frames, start) := Push(sx, stack, sx.parseTag(tag).value);
    TagToken(tag, more);
    assert !("!" <= tag) && !("?" <= tag) && !("/" <= tag);
    DrainStep(sx, "<" + tag + ">" + more, stack, Token.Markup(tag), more, [start], frames);
  }

  lemma EmptyTagStep(sx: Syntax, tag: string, more: string, stack: seq<Frame>)
    requires Opens(sx, tag)
    ensures var start := Push(sx, stack, sx.parseTag(tag).value).1;
      Drain(sx, "<" + (tag + "/") + ">" + more, stack) == Prepend([start, End(Some(start.name))], Drain(sx, more, stack))
  {
    var (frames, start) := Push(sx, stack, sx.parseTag(tag).value);
    var elem := tag + "/";
    TagToken(elem, more);
    assert elem[0] == tag[0] && elem[..|elem| - 1] == tag && elem[|elem| - 1] == '/';
    assert !("!" <= elem) && !("?" <= elem) && !("/" <= elem);
    assert frames[..|frames| - 1] == stack;
    DrainStep(sx, "<" + elem + ">" + more, stack, Token.Markup(elem), more, [start, End(Some(start.name))], stack);
  }

  lemma EndTagStep(sx: Syntax, closing: string, more: string, stack: seq<Frame>, frames: seq<Frame>, name: string)
    requires '>' !in closing && |frames| == |stack| + 1 && frames[..|stack|] == stack && frames[|stack|].tag == Some(name)
    ensures Drain(sx, "</" + closing + ">" + more, frames) == Prepend([End(Some(name))], Drain(sx, more, stack))
  {
    var elem := "/" + closing;
    TagToken(elem, more);
    assert "</" + closing + ">" + more == "<" + elem + ">" + more;
    assert elem[0] == '/' && "/" <= elem;
    assert !("!" <= elem) && !("?" <= elem);
    DrainStep(sx, "<" + elem + ">" + more, frames, Token.Markup(elem), more, [End(Some(name))], stack);
  }

  lemma IgnoredStep(sx: Syntax, tag: string, more: string, stack: seq<Frame>)
    requires tag != "" && '>' !in tag && (tag[0] == '!' || tag[0] == '?')
    ensures Drain(sx, "<" + tag + ">" + more, stack) == Drain(sx, more, stack)
  {
    TagToken(tag, more);
    assert "!" <= tag || "?" <= tag;
    DrainStep(sx, "<" + tag + ">" + more, stack, Token.Markup(tag), more, [], stack);
    PrependNothing(Drain(sx, more, stack));
  }

  /** A document that is followed by another tag gives exactly its events, and the namespaces are afterwards as before. */
  lemma {:induction false} DocumentEvents(sx: Syntax, stack: seq<Frame>, c: Content, more: string)
    requires WellWritten(sx, c) && more != "" && more[0] == '<'
    ensures Drain(sx, Written(c) + more, stack) == Prepend(EventsOf(sx, stack, c), Drain(sx, more, stack))
    decreases c
  {
    match c
    case Nothing =>
      assert "" + more == more;
      PrependNothing(Drain(sx, more, stack));
    case Chars(text, rest) =>
      var after := Written(rest) + more;
      assert rest.Nothing? ==> after == more;
      assert after != "" && after[0] == '<';
      Associative(text, Written(rest), more);
      TextToken(text, after);
      DrainStep(sx, text + after, stack, Token.Chars(text), after, [Text(sx.unescape(text).value)], stack);
      DocumentEvents(sx, stack, rest, more);
      PrependTwice([Text(sx.unescape(text).value)], EventsOf(sx, stack, rest), Drain(sx, more, stack));
    case Element(tag, inner, closing, rest) =>
      ElementEvents(sx, stack, tag, inner, closing, rest, more);
    case EmptyElement(tag, rest) =>
      var start := Push(sx, stack, sx.parseTag(tag).value).1;
      Associative("<" + (tag + "/") + ">", Written(rest), more);
      EmptyTagStep(sx, tag, Written(rest) + more, stack);
      DocumentEvents(sx, stack, rest, more);
      PrependTwice([start, End(Some(start.name))], EventsOf(sx, stack, rest), Drain(sx, more, stack));
    case Ignored(tag, rest) =>
      Associative("<" + tag + ">", Written(rest), more);
      IgnoredStep(sx, tag, Written(rest) + more, stack);
      DocumentEvents(sx, stack, rest, more);
  }

  /** A new parser that is fed a document and the beginning of a tag, in pieces of any size, emits exactly the events
      of the document. */
  lemma DocumentInPieces(sx: Syntax, c: Content, chunks: seq<string>)
    requires WellWritten(sx, c) && Join(chunks) == Written(c) + "<"
    ensures FeedAll(sx, INITIAL, chunks) == Outcome(Live("<", [ROOT]), EventsOf(sx, [ROOT], c))
  {
    ChunkingIsInvisible(sx, INITIAL, chunks);
    assert "" + Join(chunks) == Join(chunks);
    DocumentEvents(sx, [ROOT], c, "<");
    assert EventsOf(sx, [ROOT], c) + [] == EventsOf(sx, [ROOT], c);
  }

  lemma ElementEvents(sx: Syntax, stack: seq<Frame>, tag: string, inner: Content, closing: string, rest: Content, more: string)
    requires WellWritten(sx, Element(tag, inner, closing, rest)) && more != "" && more[0] == '<'
    ensures var c := Element(tag, inner, closing, rest);
      Drain(sx, Written(c) + more, stack) == Prepend(EventsOf(sx, stack, c), Drain(sx, more, stack))
    decreases Element(tag, inner, closing, rest), 0
  {
    var (frames, start) := Push(sx, stack, sx.parseTag(tag).value);
    var open, end, last := "<" + tag + ">", "</" + closing + ">", Written(rest) + more;
    var final := Drain(sx, more, stack);
    assert open + (Written(inner) + (end + Written(rest))) + more == open + (Written(inner) + (end + last));
    TagStep(sx, tag, Written(inner) + (end + last), stack);
    DocumentEvents(sx, frames, inner, end + last);
    EndTagStep(sx, closing, last, stack, frames, start.name);
    DocumentEvents(sx, stack, rest, more);
    var tail := [End(Some(start.name))] + EventsOf(sx, stack, rest);
    PrependTwice([End(Some(start.name))], EventsOf(sx, stack, rest), final);
    PrependTwice(EventsOf(sx, frames, inner), tail, final);
    PrependTwice([start], EventsOf(sx, frames, inner) + tail, final);
  }

  // ---- Start and end events match ----

  function Tags(stack: seq<Frame>): (r: seq<Option<string>>)
    ensures |r| == |stack|
  {
    seq(|stack|, i requires 0 <= i < |stack| => stack[i].tag)
  }

  /** One event read off: which elements are open after it. An end event must carry the name
      of the element opened last. */
  function OpenStep(open: seq<Option<string>>, event: Event): Option<seq<Option<string>>> {
    if event.Start? then Some(open + [Some(event.name)])
    else if event.Text? then Some(open)
    else if open == [] || open[|open| - 1] != event.tag then None
    else Some(open[..|open| - 1])
  }

  /** Which elements are open after some events, if all end events match. It knows nothing
      of prefixes and namespaces. */
  function Open(open: seq<Option<string>>, events: seq<Event>): Option<seq<Option<string>>>
    decreases events
  {
    if events == [] then Some(open) else
    var next := OpenStep(open, events[0]);
    if next.None? then None else Open(next.value, events[1..])
  }

  lemma {:induction false} OpenAppend(open: seq<Option<string>>, a: seq<Event>, b: seq<Event>)
    requires Open(open, a).Some?
    ensures Open(open, a + b) == Open(Open(open, a).value, b)
    decreases a
  {
    if a == [] {
      assert a + b == b;
    } else {
      assert (a + b)[1..] == a[1..] + b && (a + b)[0] == a[0];
      OpenAppend(OpenStep(open, a[0]).value, a[1..], b);
    }
  }

  lemma OpenOne(open: seq<Option<string>>, event: Event)
    ensures Open(open, [event]) == OpenStep(open, event)
  {
  }

  lemma TagsPush(stack: seq<Frame>, frame: Frame)
    ensures Tags(stack + [frame]) == Tags(stack) + [frame.tag]
    ensures stack != [] ==> Tags(stack[..|stack| - 1]) == Tags(stack)[..|stack| - 1]
  {
  }

  /** The events of one token keep the open elements in step with the namespace frames. */
  lemma ActMatches(sx: Syntax, stack: seq<Frame>, token: Token)
    requires Act(sx, stack, token).Some?
    ensures var (events, stack') := Act(sx, stack, token).value; Open(Tags(stack), events) == Some(Tags(stack'))
  {
    var (events, stack') := Act(sx, stack, token).value;
    if events != [] && events[0].Start? {
      var start := events[0];
      OpenOne(Tags(stack), start);
      var frame := Frame(Some(start.name), map[]);
      TagsPush(stack, frame);
      if |events| == 2 {
        assert events == [start] + [End(Some(start.name))];
        OpenAppend(Tags(stack), [start], [End(Some(start.name))]);
        OpenOne(Tags(stack) + [Some(start.name)], End(Some(start.name)));
        assert (Tags(stack) + [Some(start.name)])[..|stack|] == Tags(stack);
      } else {
        assert Tags(stack') == Tags(stack) + [Some(start.name)];
      }
    } else if events != [] {
      OpenOne(Tags(stack), events[0]);
      TagsPush(stack, ROOT);
    }
  }

  /** Every end event carries the resolved name of the start event it belongs to. */
  lemma {:induction false} EventsMatch(sx: Syntax, data: string, stack: seq<Frame>)
    ensures var r := Drain(sx, data, stack);
      && Open(Tags(stack), r.events).Some?
      && (r.state.Live? ==> Open(Tags(stack), r.events).value == Tags(r.state.stack))
    decreases |data|
  {
    var next := NextToken(data);
    if next.Some? {
      var acted := Act(sx, stack, next.value.0);
      if acted.Some? {
        ActMatches(sx, stack, next.value.0);
        EventsMatch(sx, next.value.1, acted.value.1);
        OpenAppend(Tags(stack), acted.value.0, Drain(sx, next.value.1, acted.value.1).events);
      }
    }
  }

  // ---- The parser ----

  class Parser {
    const sx: Syntax
    var data: string
    var stack: seq<Frame>
    var dead: bool

    ghost function StateOf(): State
      reads this
    {
      if dead then Dead else Live(data, stack)
    }

    constructor (sx: Syntax)
      ensures this.sx == sx && StateOf() == INITIAL
    {
      this.sx, data, stack, dead := sx, "", [ROOT], false;
    }

    /** parse: resumes the coroutine with one more piece of input. */
    method Parse(chunk: string) returns (events: seq<Event>)
      modifies this
      ensures Outcome(StateOf(), events) == Feed(sx, old(StateOf()), chunk)
    {
      events := [];
      if dead {
        return;
      }
      ghost var goal := Feed(sx, StateOf(), chunk);
      data := data + chunk;
      PrependNothing(Drain(sx, data, stack));
      var next := NextToken(data);
      while next.Some?
        invariant !dead && next == NextToken(data)
        invariant goal == Prepend(events, Drain(sx, data, stack))
        decreases |data|
      {
        var acted := Act(sx, stack, next.value.0);
        if acted.None? {
          dead := true;
          assert events + [] == events;
          return;
        }
        PrependTwice(events, acted.value.0, Drain(sx, next.value.1, acted.value.1));
        events := events + acted.value.0;
        data, stack := next.value.1, acted.value.1;
        next := NextToken(data);
      }
      assert events + [] == events;
    }
  }
}
