/**
 * The simulator's small XML reader: entity decoding, a tokenizer that follows
 * the reader's two regular expressions (tags and attributes), and the
 * stack-based walker that builds the element tree.
 */
module Xml {
  import opened JsValues
  import opened JsString

  // ---------------------------------------------------------------------
  // Entities
  // ---------------------------------------------------------------------

  /** The five characters XML 1.0 (section 4.6) predefines entities for. */
  predicate IsSpecial(c: char)
  {
    c == '&' || c == '<' || c == '>' || c == '"' || c == '\''
  }

  function Entity(c: char): (e: string)
    requires IsSpecial(c)
    ensures |e| >= 4 && e[0] == '&' && e[|e| - 1] == ';'
    ensures forall i :: 1 <= i < |e| ==> e[i] != '&'
  {
    if c == '&' then "&amp;"
    else if c == '<' then "&lt;"
    else if c == '>' then "&gt;"
    else if c == '"' then "&quot;"
    else "&apos;"
  }

  /**
   * escapeXML (which, despite its name, decodes): a string without '&' is
   * returned as it is; otherwise &apos;, &quot;, &gt; and &lt; are replaced,
   * and &amp; last.
   */
  function EscapeXML(s: string): string
  {
    if Includes(s, "&") then
      ReplaceAll(ReplaceAll(ReplaceAll(ReplaceAll(ReplaceAll(s, "&apos;", "'"), "&quot;", "\""), "&gt;", ">"), "&lt;", "<"), "&amp;", "&")
    else s
  }

  lemma EscapeXMLPlain(s: string)
    requires '&' !in s
    ensures EscapeXML(s) == s
  {
    forall i: nat
      ensures !OccursAt(s, "&", i)
    {
      if i + 1 <= |s| {
        assert s[i..i + 1] == [s[i]];
      }
    }
  }

  /** Because &amp; is decoded last, an encoded entity reference is decoded only once. */
  lemma EscapeXMLAmpLast()
    ensures EscapeXML("&amp;lt;") == "&lt;"
  {
    var s := "&amp;lt;";
    calc {
      EscapeXML(s);
    == { assert OccursAt(s, "&", 0); IncludesAt(s, "&", 0); }
      ReplaceAll(ReplaceAll(ReplaceAll(ReplaceAll(ReplaceAll(s, "&apos;", "'"), "&quot;", "\""), "&gt;", ">"), "&lt;", "<"), "&amp;", "&");
    == { ReplaceAllAbsentLater(s, "&apos;", "'", 2); }
      ReplaceAll(ReplaceAll(ReplaceAll(ReplaceAll(s, "&quot;", "\""), "&gt;", ">"), "&lt;", "<"), "&amp;", "&");
    == { ReplaceAllAbsentLater(s, "&quot;", "\"", 1); }
      ReplaceAll(ReplaceAll(ReplaceAll(s, "&gt;", ">"), "&lt;", "<"), "&amp;", "&");
    == { ReplaceAllAbsentLater(s, "&gt;", ">", 1); }
      ReplaceAll(ReplaceAll(s, "&lt;", "<"), "&amp;", "&");
    == { ReplaceAllAbsentLater(s, "&lt;", "<", 1); }
      ReplaceAll(s, "&amp;", "&");
    == { assert s == "&amp;" + "lt;"; ReplaceAllHit("lt;", "&amp;", "&"); }
      "&" + ReplaceAll("lt;", "&amp;", "&");
    == { ReplaceAllAbsent("lt;", "&amp;", "&"); }
      "&lt;";
    }
  }

  /** A pattern that starts with '&' and does not match at the only '&' of s leaves s alone. */
  lemma ReplaceAllAbsentLater(s: string, p: string, r: string, j: nat)
    requires s == "&amp;lt;"
    requires p != [] && p[0] == '&' && j < |p| && j < |s| && s[j] != p[j]
    ensures ReplaceAll(s, p, r) == s
  {
    assert s == "&" + "amp;lt;";
    assert !OccursAt("&" + "amp;lt;", p, 0) by {
      assert s[j] != p[j];
    }
    ReplaceAllSkip("&", "amp;lt;", p, r);
    ReplaceAllAbsent("amp;lt;", p, r);
  }

  /** How a character is written when the characters of `done` are left as they are. */
  function EncChar(c: char, done: set<char>): string
  {
    if IsSpecial(c) && c !in done then Entity(c) else [c]
  }

  function EncWith(s: string, done: set<char>): string
  {
    if s == [] then "" else EncChar(s[0], done) + EncWith(s[1..], done)
  }

  /** The encoding the reader's decoding undoes: every special character as its entity. */
  function EncodeXML(s: string): string
  {
    EncWith(s, {})
  }

  /** Distinct entities differ within their first three characters. */
  lemma EntitiesDiffer(c: char, t: char)
    requires IsSpecial(c) && IsSpecial(t) && c != t
    ensures exists i :: 0 <= i < 3 && Entity(c)[i] != Entity(t)[i]
  {
    if c == '&' || t == '&' {
      if c == '\'' || t == '\'' {
        assert Entity(c)[2] != Entity(t)[2];
      } else {
        assert Entity(c)[1] != Entity(t)[1];
      }
    } else {
      assert Entity(c)[1] != Entity(t)[1];
    }
  }

  /** No entity other than t's own starts inside the encoding of a character c != t. */
  lemma NoMatchInside(c: char, done: set<char>, t: char, y: string)
    requires IsSpecial(t) && t !in done && '&' !in done && c != t
    ensures forall i :: 0 <= i < |EncChar(c, done)| ==> !OccursAt(EncChar(c, done) + y, Entity(t), i)
  {
    var x := EncChar(c, done);
    var p := Entity(t);
    forall i | 0 <= i < |x|
      ensures !OccursAt(x + y, p, i)
    {
      if i == 0 && x[0] == '&' {
        assert IsSpecial(c) && c !in done;
        EntitiesDiffer(c, t);
        var j :| 0 <= j < 3 && Entity(c)[j] != Entity(t)[j];
        assert (x + y)[j] != p[j];
      } else {
        assert (x + y)[i] != p[0];
      }
    }
  }

  /** One decoding pass turns the encoding with `done` into the encoding with `done + {t}`. */
  lemma {:induction false} DecodePass(s: string, done: set<char>, t: char)
    requires IsSpecial(t) && t !in done && '&' !in done
    ensures ReplaceAll(EncWith(s, done), Entity(t), [t]) == EncWith(s, done + {t})
    decreases |s|
  {
    if s != [] {
      var y := EncWith(s[1..], done);
      DecodePass(s[1..], done, t);
      if s[0] == t {
        ReplaceAllHit(y, Entity(t), [t]);
      } else {
        NoMatchInside(s[0], done, t, y);
        ReplaceAllSkip(EncChar(s[0], done), y, Entity(t), [t]);
      }
    }
  }

  lemma {:induction false} EncWithAll(s: string)
    ensures EncWith(s, {'\'', '"', '>', '<', '&'}) == s
  {
    if s != [] {
      EncWithAll(s[1..]);
    }
  }

  /** A string whose encoding has no '&' has no special characters, so encoding keeps it. */
  lemma {:induction false} EncodePlain(s: string)
    requires '&' !in EncodeXML(s)
    ensures EncodeXML(s) == s
  {
    if s != [] {
      assert EncodeXML(s) == EncChar(s[0], {}) + EncodeXML(s[1..]);
      assert EncodeXML(s)[0] == EncChar(s[0], {})[0];
      EncodePlain(s[1..]);
    }
  }

  /** Decoding undoes encoding. */
  lemma EscapeXMLRoundTrip(s: string)
    ensures EscapeXML(EncodeXML(s)) == s
  {
    var e := EncodeXML(s);
    if Includes(e, "&") {
      var d1: set<char> := {'\''};
      var d2: set<char> := {'\'', '"'};
      var d3: set<char> := {'\'', '"', '>'};
      var d4: set<char> := {'\'', '"', '>', '<'};
      var d5: set<char> := {'\'', '"', '>', '<', '&'};
      DecodePass(s, {}, '\'');
      assert {} + {'\''} == d1;
      var e1 := ReplaceAll(e, "&apos;", "'");
      assert e1 == EncWith(s, d1);
      DecodePass(s, d1, '"');
      assert d1 + {'"'} == d2;
      var e2 := ReplaceAll(e1, "&quot;", "\"");
      assert e2 == EncWith(s, d2);
      DecodePass(s, d2, '>');
      assert d2 + {'>'} == d3;
      var e3 := ReplaceAll(e2, "&gt;", ">");
      assert e3 == EncWith(s, d3);
      DecodePass(s, d3, '<');
      assert d3 + {'<'} == d4;
      var e4 := ReplaceAll(e3, "&lt;", "<");
      assert e4 == EncWith(s, d4);
      DecodePass(s, d4, '&');
      assert d4 + {'&'} == d5;
      var e5 := ReplaceAll(e4, "&amp;", "&");
      assert e5 == EncWith(s, d5);
      EncWithAll(s);
    } else {
      if '&' in e {
        var i :| 0 <= i < |e| && e[i] == '&';
        assert e[i..i + 1] == "&";
        assert OccursAt(e, "&", i);
        IncludesAt(e, "&", i);
      }
      EncodePlain(s);
    }
  }

  // ---------------------------------------------------------------------
  // Tokens: /[<]([/]?)([?a-z_-]+)([^>]*)[>]+|(\s*[^<]+)/gi
  // ---------------------------------------------------------------------

  /** `[?a-z_-]` under the case-insensitive flag. */
  predicate IsIdentChar(c: char)
  {
    c == '?' || ('a' <= c <= 'z') || ('A' <= c <= 'Z') || c == '_' || c == '-'
  }

  function IdentRun(s: string, from: nat): (n: nat)
    requires from <= |s|
    ensures from + n <= |s|
    ensures forall i :: from <= i < from + n ==> IsIdentChar(s[i])
    ensures from + n < |s| ==> !IsIdentChar(s[from + n])
    decreases |s| - from
  {
    if from < |s| && IsIdentChar(s[from]) then 1 + IdentRun(s, from + 1) else 0
  }

  /** Length of the run of characters other than c starting at from. */
  function RunWithout(s: string, from: nat, c: char): (n: nat)
    requires from <= |s|
    ensures from + n <= |s|
    ensures forall i :: from <= i < from + n ==> s[i] != c
    ensures from + n < |s| ==> s[from + n] == c
    decreases |s| - from
  {
    if from < |s| && s[from] != c then 1 + RunWithout(s, from + 1, c) else 0
  }

  /** Length of the run of copies of c starting at from. */
  function RunOf(s: string, from: nat, c: char): (n: nat)
    requires from <= |s|
    ensures from + n <= |s|
    ensures forall i :: from <= i < from + n ==> s[i] == c
    ensures from + n < |s| ==> s[from + n] != c
    decreases |s| - from
  {
    if from < |s| && s[from] == c then 1 + RunOf(s, from + 1, c) else 0
  }

  /** A match of the tag expression: an open or close tag, or a run of text. */
  datatype Token = Tag(close: bool, ident: string, attrs: string) | Text(content: string)

  /**
   * The tag alternative tried where s starts with '<': an optional '/', a
   * non-empty name, everything up to the next '>', and all the '>' there;
   * the length matched comes with the token.
   */
  function TagMatch(s: string): (r: Option<(Token, nat)>)
    requires s != [] && s[0] == '<'
    ensures r.Some? ==> 0 < r.value.1 <= |s| && r.value.0.Tag?
    ensures r.Some? ==> r.value.0.ident != [] && forall i :: 0 <= i < |r.value.0.ident| ==> IsIdentChar(r.value.0.ident[i])
    ensures r.Some? ==> '>' !in r.value.0.attrs
  {
    var close := 1 < |s| && s[1] == '/';
    var i0 := if close then 2 else 1;
    var n := IdentRun(s, i0);
    if n == 0 then None
    else
      var a0 := i0 + n;
      var m := RunWithout(s, a0, '>');
      if a0 + m == |s| then None
      else Some((Tag(close, s[i0..a0], s[a0..a0 + m]), a0 + m + RunOf(s, a0 + m, '>')))
  }

  /**
   * tag_re.exec: the leftmost match. Text runs from a character other than
   * '<' up to the next '<'; a '<' that starts no tag is skipped. The token
   * comes with the input that follows the match.
   */
  function NextToken(s: string): (r: Option<(Token, string)>)
    ensures r.None? <==> forall i :: 0 <= i < |s| ==> s[i] == '<'
    ensures r.Some? ==> |r.value.1| < |s|
    ensures r.Some? && r.value.0.Text? ==> r.value.0.content != [] && '<' !in r.value.0.content
    decreases |s|
  {
    if s == [] then None
    else if s[0] != '<' then
      var n := RunWithout(s, 0, '<');
      Some((Text(s[..n]), s[n..]))
    else
      match TagMatch(s)
      case Some((tok, len)) => Some((tok, s[len..]))
      case None => NextToken(s[1..])
  }

  // ---------------------------------------------------------------------
  // Attributes: /\s*(\w+)="(.*?)"\s*/gi
  // ---------------------------------------------------------------------

  /** Length of the run of characters `.` matches that are not '"'. */
  function ValueRun(s: string, from: nat): (n: nat)
    requires from <= |s|
    ensures from + n <= |s|
    ensures forall i :: from <= i < from + n ==> s[i] != '"' && !IsLineTerminator(s[i])
    ensures from + n < |s| ==> s[from + n] == '"' || IsLineTerminator(s[from + n])
    decreases |s| - from
  {
    if from < |s| && s[from] != '"' && !IsLineTerminator(s[from]) then 1 + ValueRun(s, from + 1) else 0
  }

  /**
   * The attribute expression tried at the start of s: white space, a word,
   * `="`, the shortest run up to the next '"' on the same line, the '"',
   * and trailing white space. Gives the name, the raw value and the length.
   */
  function AttrMatch(s: string): (r: Option<(string, string, nat)>)
    ensures r.Some? ==> 0 < r.value.2 <= |s|
    ensures r.Some? ==> r.value.0 != [] && forall i :: 0 <= i < |r.value.0| ==> IsWordChar(r.value.0[i])
  {
    var sp := SpaceRun(s, 0);
    var w := WordRun(s, sp);
    WordRunFacts(s, sp);
    var e := sp + w;
    if w == 0 || e + 2 > |s| || s[e] != '=' || s[e + 1] != '"' then None
    else
      var v0 := e + 2;
      var vl := ValueRun(s, v0);
      if v0 + vl == |s| || s[v0 + vl] != '"' then None
      else Some((s[sp..e], s[v0..v0 + vl], v0 + vl + 1 + SpaceRun(s, v0 + vl + 1)))
  }

  /** attr_re.exec: the leftmost attribute match, with the input after it. */
  function NextAttr(s: string): (r: Option<(string, string, string)>)
    ensures r.Some? ==> |r.value.2| < |s|
    decreases |s|
  {
    if s == [] then None
    else
      match AttrMatch(s)
      case Some((name, value, len)) => Some((name, value, s[len..]))
      case None => NextAttr(s[1..])
  }

  /** The attributes of the rest of the text, entered into acc left to right (a later one wins). */
  function AttrsFrom(s: string, acc: map<string, string>): map<string, string>
    decreases |s|
  {
    match NextAttr(s)
    case None => acc
    case Some((name, value, rest)) => AttrsFrom(rest, acc[name := EscapeXML(value)])
  }

  /** parseattrs: each attribute's decoded value under its name. */
  method ParseAttrs(text: string) returns (attrs: map<string, string>)
    ensures attrs == AttrsFrom(text, map[])
  {
    attrs := map[];
    var rest := text;
    while true
      invariant AttrsFrom(rest, attrs) == AttrsFrom(text, map[])
      decreases |rest|
    {
      var m := NextAttr(rest);
      if m.None? {
        return;
      }
      var (name, value, after) := m.value;
      attrs := attrs[name := EscapeXML(value)];
      rest := after;
    }
  }

  // ---------------------------------------------------------------------
  // The walker
  // ---------------------------------------------------------------------

  /**
   * An element: its tag name, its text, its closed children, its decoded
   * attributes, and what the open/close callbacks returned for it.
   */
  datatype XmlNode<T> = XmlNode(typ: string, text: Option<string>, children: seq<XmlNode<T>>,
                                attrs: map<string, string>, obj: Option<T>)

  datatype XmlError =
    | MismatchClose(ident: string)     // the popped element has another name, or nothing is open
    | CloseWithoutOpen(ident: string)  // the popped element was the outermost one
    | ContentWithoutElement
    | TagNotClosed
    | XmlNotFirst
    | NoTop

  /** The walker's state: the open elements, innermost last, and the last closed element. */
  datatype Walk<T> = Walk(stack: seq<XmlNode<T>>, top: Option<XmlNode<T>>)

  /** closetop: pop, check the name, run closefn, append to the new innermost element. */
  function CloseTop<T>(w: Walk<T>, ident: string, closefn: Option<XmlNode<T> -> T>): (r: Result<Walk<T>, XmlError>)
    ensures r.Ok? ==> |w.stack| >= 2 && |r.value.stack| == |w.stack| - 1 && r.value.top.Some?
    ensures r.Ok? ==> w.stack != [] && r.value.top.value.typ == ident == w.stack[|w.stack| - 1].typ
    ensures r.Ok? ==> r.value.stack[|r.value.stack| - 1].children
                      == w.stack[|w.stack| - 2].children + [r.value.top.value]
    ensures r.Ok? ==> r.value.stack[..|r.value.stack| - 1] == w.stack[..|w.stack| - 2]
    ensures r.Err? ==> r.error == (if w.stack == [] || w.stack[|w.stack| - 1].typ != ident
                                   then MismatchClose(ident) else CloseWithoutOpen(ident))
  {
    if w.stack == [] then Err(MismatchClose(ident))
    else
      var node := w.stack[|w.stack| - 1];
      if node.typ != ident then Err(MismatchClose(ident))
      else
        var closed := if closefn.Some? then node.(obj := Some(closefn.value(node))) else node;
        var rest := w.stack[..|w.stack| - 1];
        if rest == [] then Err(CloseWithoutOpen(ident))
        else
          var parent := rest[|rest| - 1];
          Ok(Walk(rest[..|rest| - 1] + [parent.(children := parent.children + [closed])], Some(closed)))
  }

  /** The element an open tag creates, after openfn has run on it. */
  function OpenNode<T>(ident: string, attrs: string, openfn: Option<XmlNode<T> -> T>): (n: XmlNode<T>)
    ensures n.typ == ident && n.text.None? && n.children == [] && n.attrs == AttrsFrom(attrs, map[])
  {
    var node := XmlNode(ident, None, [], AttrsFrom(attrs, map[]), None);
    if openfn.Some? then node.(obj := Some(openfn.value(node))) else node
  }

  /** What the walker does with one token. */
  function Step<T>(w: Walk<T>, tok: Token, openfn: Option<XmlNode<T> -> T>, closefn: Option<XmlNode<T> -> T>): Result<Walk<T>, XmlError>
  {
    match tok
    case Tag(true, ident, _) => CloseTop(w, ident, closefn)
    case Tag(false, ident, attrs) =>
      var pushed := Walk(w.stack + [OpenNode(ident, attrs, openfn)], w.top);
      if EndsWith(attrs, "/") then CloseTop(pushed, ident, closefn) else Ok(pushed)
    case Text(content) =>
      if w.stack == [] then Err(ContentWithoutElement)
      else
        var txt := Trim(EscapeXML(content));
        if txt == [] then Ok(w)
        else
          var node := w.stack[|w.stack| - 1];
          Ok(Walk(w.stack[..|w.stack| - 1] + [node.(text := Some(txt))], w.top))
  }

  /** What one token does to the walker's state. */
  lemma StepEffects<T>(w: Walk<T>, tok: Token, openfn: Option<XmlNode<T> -> T>, closefn: Option<XmlNode<T> -> T>)
    // an open tag pushes a fresh element, with nothing else changed
    ensures var r := Step(w, tok, openfn, closefn);
            tok.Tag? && !tok.close && !EndsWith(tok.attrs, "/") ==>
              r.Ok? && |r.value.stack| == |w.stack| + 1 && r.value.stack[..|w.stack|] == w.stack && r.value.top == w.top &&
              r.value.stack[|w.stack|] == OpenNode(tok.ident, tok.attrs, openfn)
    // a self-closing tag is opened and closed at once: it becomes the last child of the innermost element
    ensures var r := Step(w, tok, openfn, closefn);
            tok.Tag? && !tok.close && EndsWith(tok.attrs, "/") && r.Ok? ==>
              |r.value.stack| == |w.stack| && r.value.top.Some? && r.value.top.value.typ == tok.ident &&
              r.value.top.value.children == [] && r.value.top.value.attrs == AttrsFrom(tok.attrs, map[])
    // a close tag pops one element
    ensures var r := Step(w, tok, openfn, closefn);
            tok.Tag? && tok.close && r.Ok? ==>
              |r.value.stack| == |w.stack| - 1 && r.value.top.Some? && r.value.top.value.typ == tok.ident
    // text needs an open element, and sets the innermost one's text when any is left after trimming
    ensures var r := Step(w, tok, openfn, closefn);
            tok.Text? ==> (r.Err? <==> w.stack == []) && (r.Err? ==> r.error == ContentWithoutElement)
    ensures var r := Step(w, tok, openfn, closefn);
            tok.Text? && r.Ok? ==>
              |r.value.stack| == |w.stack| && r.value.top == w.top && r.value.stack[..|w.stack| - 1] == w.stack[..|w.stack| - 1] &&
              var txt := Trim(EscapeXML(tok.content));
              var last := w.stack[|w.stack| - 1];
              r.value.stack[|w.stack| - 1] == if txt == [] then last else last.(text := Some(txt))
  {
  }

  /** The walker run over every token of s, stopping at the first error. */
  function WalkText<T>(s: string, w: Walk<T>, openfn: Option<XmlNode<T> -> T>, closefn: Option<XmlNode<T> -> T>): Result<Walk<T>, XmlError>
    decreases |s|
  {
    match NextToken(s)
    case None => Ok(w)
    case Some((tok, rest)) =>
      match Step(w, tok, openfn, closefn)
      case Err(e) => Err(e)
      case Ok(w') => WalkText(rest, w', openfn, closefn)
  }

  /** The checks at the end of the input. */
  function Finish<T>(w: Walk<T>): (r: Result<XmlNode<T>, XmlError>)
    ensures r.Ok? <==> |w.stack| == 1 && w.stack[0].typ == "?xml" && w.top.Some?
    ensures r.Ok? ==> r.value == w.top.value
  {
    if |w.stack| != 1 then Err(TagNotClosed)
    else if w.stack[0].typ != "?xml" then Err(XmlNotFirst)
    else if w.top.None? then Err(NoTop)
    else Ok(w.top.value)
  }

  /** The outcome of the rest of the input from a given walker state. */
  function Resume<T>(s: string, w: Walk<T>, openfn: Option<XmlNode<T> -> T>, closefn: Option<XmlNode<T> -> T>): Result<XmlNode<T>, XmlError>
  {
    match WalkText(s, w, openfn, closefn)
    case Err(e) => Err(e)
    case Ok(w') => Finish(w')
  }

  function ParseSpec<T>(s: string, openfn: Option<XmlNode<T> -> T>, closefn: Option<XmlNode<T> -> T>): Result<XmlNode<T>, XmlError>
  {
    Resume(s, Walk([], None), openfn, closefn)
  }

  /** closetop on the walker's variables. */
  method CloseTopStep<T>(stack: seq<XmlNode<T>>, top: Option<XmlNode<T>>, ident: string, closefn: Option<XmlNode<T> -> T>)
    returns (r: Result<Walk<T>, XmlError>)
    ensures r == CloseTop(Walk(stack, top), ident, closefn)
  {
    if stack == [] || stack[|stack| - 1].typ != ident {
      return Err(MismatchClose(ident));
    }
    var node := stack[|stack| - 1];
    var rest := stack[..|stack| - 1];
    if closefn.Some? {
      node := node.(obj := Some(closefn.value(node)));
    }
    if rest == [] {
      return Err(CloseWithoutOpen(ident));
    }
    var parent := rest[|rest| - 1];
    r := Ok(Walk(rest[..|rest| - 1] + [parent.(children := parent.children + [node])], Some(node)));
  }

  /**
   * parseXMLPoorly: the explicit stack of open elements is pushed on open
   * tags and popped on close tags as the tokens are read, text goes to the
   * innermost open element, and the result is the last element closed.
   */
  method ParseXMLPoorly<T>(s: string, openfn: Option<XmlNode<T> -> T>, closefn: Option<XmlNode<T> -> T>)
    returns (r: Result<XmlNode<T>, XmlError>)
    ensures r == ParseSpec(s, openfn, closefn)
  {
    var stack: seq<XmlNode<T>> := [];
    var top: Option<XmlNode<T>> := None;
    var rest := s;
    while true
      invariant Resume(rest, Walk(stack, top), openfn, closefn) == ParseSpec(s, openfn, closefn)
      decreases |rest|
    {
      var m := NextToken(rest);
      if m.None? {
        break;
      }
      var (tok, after) := m.value;
      ghost var w0 := Walk(stack, top);
      ResumeStep(rest, w0, openfn, closefn);
      match tok {
        case Tag(true, ident, _) =>
          var c := CloseTopStep(stack, top, ident, closefn);
          if c.Err? {
            return Err(c.error);
          }
          stack, top := c.value.stack, c.value.top;
        case Tag(false, ident, attrs) =>
          stack := stack + [OpenNode(ident, attrs, openfn)];
          if EndsWith(attrs, "/") {
            var c := CloseTopStep(stack, top, ident, closefn);
            if c.Err? {
              return Err(c.error);
            }
            stack, top := c.value.stack, c.value.top;
          }
        case Text(content) =>
          if stack == [] {
            return Err(ContentWithoutElement);
          }
          var txt := Trim(EscapeXML(content));
          if txt != [] {
            stack := stack[..|stack| - 1] + [stack[|stack| - 1].(text := Some(txt))];
          }
      }
      assert Step(w0, tok, openfn, closefn) == Ok(Walk(stack, top));
      rest := after;
    }
    if |stack| != 1 {
      return Err(TagNotClosed);
    }
    if stack[0].typ != "?xml" {
      return Err(XmlNotFirst);
    }
    if top.None? {
      return Err(NoTop);
    }
    r := Ok(top.value);
  }

  /** One token of the input: the outcome is that of the step, then of the rest. */
  lemma ResumeStep<T>(s: string, w: Walk<T>, openfn: Option<XmlNode<T> -> T>, closefn: Option<XmlNode<T> -> T>)
    requires NextToken(s).Some?
    ensures var (tok, rest) := NextToken(s).value;
            Resume(s, w, openfn, closefn) ==
              match Step(w, tok, openfn, closefn)
              case Err(e) => Err(e)
              case Ok(w') => Resume(rest, w', openfn, closefn)
  {
  }

  // ---------------------------------------------------------------------
  // Where the result sits
  // ---------------------------------------------------------------------

  /** The last closed element is the last child of some open element. */
  ghost predicate TopIsLastChild<T>(w: Walk<T>)
  {
    w.top.Some? ==>
      exists k :: 0 <= k < |w.stack| && w.stack[k].children != [] &&
        w.stack[k].children[|w.stack[k].children| - 1] == w.top.value
  }

  lemma CloseTopSetsLastChild<T>(w: Walk<T>, ident: string, closefn: Option<XmlNode<T> -> T>)
    requires CloseTop(w, ident, closefn).Ok?
    ensures TopIsLastChild(CloseTop(w, ident, closefn).value)
  {
    var w' := CloseTop(w, ident, closefn).value;
    var k := |w'.stack| - 1;
    assert w'.stack[k].children[|w'.stack[k].children| - 1] == w'.top.value;
  }

  lemma PushKeepsTopIsLastChild<T>(w: Walk<T>, node: XmlNode<T>)
    requires TopIsLastChild(w)
    ensures TopIsLastChild(Walk(w.stack + [node], w.top))
  {
    if w.top.Some? {
      var k :| 0 <= k < |w.stack| && w.stack[k].children != [] &&
        w.stack[k].children[|w.stack[k].children| - 1] == w.top.value;
      assert (w.stack + [node])[k] == w.stack[k];
    }
  }

  lemma TextKeepsTopIsLastChild<T>(w: Walk<T>, txt: string)
    requires TopIsLastChild(w) && w.stack != []
    ensures TopIsLastChild(Walk(w.stack[..|w.stack| - 1] + [w.stack[|w.stack| - 1].(text := Some(txt))], w.top))
  {
    var stack' := w.stack[..|w.stack| - 1] + [w.stack[|w.stack| - 1].(text := Some(txt))];
    if w.top.Some? {
      var k :| 0 <= k < |w.stack| && w.stack[k].children != [] &&
        w.stack[k].children[|w.stack[k].children| - 1] == w.top.value;
      assert stack'[k].children == w.stack[k].children;
    }
  }

  lemma StepKeepsTopIsLastChild<T>(w: Walk<T>, tok: Token, openfn: Option<XmlNode<T> -> T>, closefn: Option<XmlNode<T> -> T>)
    requires TopIsLastChild(w) && Step(w, tok, openfn, closefn).Ok?
    ensures TopIsLastChild(Step(w, tok, openfn, closefn).value)
  {
    match tok {
      case Tag(true, ident, _) =>
        CloseTopSetsLastChild(w, ident, closefn);
      case Tag(false, ident, attrs) =>
        var pushed := Walk(w.stack + [OpenNode(ident, attrs, openfn)], w.top);
        if EndsWith(attrs, "/") {
          CloseTopSetsLastChild(pushed, ident, closefn);
        } else {
          PushKeepsTopIsLastChild(w, OpenNode(ident, attrs, openfn));
        }
      case Text(content) =>
        var txt := Trim(EscapeXML(content));
        if txt != [] {
          TextKeepsTopIsLastChild(w, txt);
        }
    }
  }

  lemma {:induction false} WalkKeepsTopIsLastChild<T>(s: string, w: Walk<T>, openfn: Option<XmlNode<T> -> T>, closefn: Option<XmlNode<T> -> T>)
    requires TopIsLastChild(w) && WalkText(s, w, openfn, closefn).Ok?
    ensures TopIsLastChild(WalkText(s, w, openfn, closefn).value)
    decreases |s|
  {
    match NextToken(s) {
      case None =>
      case Some((tok, rest)) =>
        StepKeepsTopIsLastChild(w, tok, openfn, closefn);
        WalkKeepsTopIsLastChild(rest, Step(w, tok, openfn, closefn).value, openfn, closefn);
    }
  }

  /**
   * A successful parse ends with the ?xml element as the only open element,
   * and its result is that element's last child.
   */
  lemma ParseResultIsLastChildOfRoot<T>(s: string, openfn: Option<XmlNode<T> -> T>, closefn: Option<XmlNode<T> -> T>)
    requires ParseSpec(s, openfn, closefn).Ok?
    ensures WalkText(s, Walk([], None), openfn, closefn).Ok?
    ensures var w := WalkText(s, Walk([], None), openfn, closefn).value;
            |w.stack| == 1 && w.stack[0].typ == "?xml" && w.stack[0].children != [] &&
            ParseSpec(s, openfn, closefn).value == w.stack[0].children[|w.stack[0].children| - 1]
  {
    ResumeOk(s, Walk([], None), openfn, closefn);
    var w := WalkText(s, Walk([], None), openfn, closefn).value;
    WalkKeepsTopIsLastChild(s, Walk([], None), openfn, closefn);
    FinishHoldsTop(w);
  }

  lemma ResumeOk<T>(s: string, w: Walk<T>, openfn: Option<XmlNode<T> -> T>, closefn: Option<XmlNode<T> -> T>)
    requires Resume(s, w, openfn, closefn).Ok?
    ensures WalkText(s, w, openfn, closefn).Ok?
    ensures Finish(WalkText(s, w, openfn, closefn).value) == Resume(s, w, openfn, closefn)
  {
  }

  /** A walk that finishes has the ?xml element alone open, and the result is its last child. */
  lemma FinishHoldsTop<T>(w: Walk<T>)
    requires TopIsLastChild(w) && Finish(w).Ok?
    ensures |w.stack| == 1 && w.stack[0].typ == "?xml" && w.stack[0].children != [] &&
            Finish(w).value == w.stack[0].children[|w.stack[0].children| - 1]
  {
    var k :| 0 <= k < |w.stack| && w.stack[k].children != [] &&
      w.stack[k].children[|w.stack[k].children| - 1] == w.top.value;
    assert k == 0;
  }
}
