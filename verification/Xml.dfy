/**
  Element trees, their indented text, and an independent reader: a character-by-character automaton
  that rebuilds the tree of a document with one root, or refuses it.
 */
module Xml {
  import opened Wrappers

  // ---- Trees and their text -------------------------------------------------------------------------

  datatype Element = Element(name: string, attributes: seq<(string, string)>, content: Content)

  datatype Content = Empty | Text(text: string) | Children(children: seq<Element>)

  function Indent(depth: nat): string {
    if depth == 0 then "" else Indent(depth - 1) + "  "
  }

  function Attribute(key: string, value: string): string {
    " " + (key + ("=\"" + (value + "\"")))
  }

  function Attributes(attributes: seq<(string, string)>): string {
    if attributes == [] then ""
    else
      var last := attributes[|attributes| - 1];
      Attributes(attributes[..|attributes| - 1]) + Attribute(last.0, last.1)
  }

  function Render(e: Element, depth: nat): string
    decreases e, 1
  {
    Indent(depth) + ("<" + Inside(e) +
    match e.content
    case Empty => "/>\n"
    case Text(text) => ">" + text + CloseTag(e.name)
    case Children(children) => ">\n" + RenderAll(children, depth + 1) + Indent(depth) + CloseTag(e.name))
  }

  function Inside(e: Element): string {
    e.name + Attributes(e.attributes)
  }

  function CloseTag(name: string): string {
    "</" + name + ">\n"
  }

  function RenderAll(es: seq<Element>, depth: nat): string
    decreases es, 0
  {
    if es == [] then "" else RenderAll(es[..|es| - 1], depth) + Render(es[|es| - 1], depth)
  }

  /** Names are made of letters. */
  predicate NameChar(c: char) {
    'a' <= c <= 'z' || 'A' <= c <= 'Z'
  }

  predicate ValidName(name: string) {
    name != "" && forall c :: c in name ==> NameChar(c)
  }

  predicate MarkupChar(c: char) {
    c == '<' || c == '>' || c == '&' || c == '"'
  }

  /** Nothing that would need escaping in a text or an attribute value. */
  predicate NoMarkup(t: string) {
    forall c :: c in t ==> !MarkupChar(c)
  }

  predicate ValidAttributes(attributes: seq<(string, string)>) {
    forall a :: a in attributes ==> ValidName(a.0) && NoMarkup(a.1)
  }

  predicate WellFormed(e: Element)
    decreases e
  {
    && ValidName(e.name)
    && ValidAttributes(e.attributes)
    && match e.content
       case Empty => true
       case Text(text) => NoMarkup(text) && !StartsLine(text)
       case Children(children) => forall c :: c in children ==> WellFormed(c)
  }

  predicate StartsLine(t: string) {
    t != "" && t[0] == '\n'
  }

  predicate Blank(t: string) {
    forall c :: c in t ==> c == ' ' || c == '\n'
  }

  // ---- The reader -----------------------------------------------------------------------------------

  /** An element whose closing tag is still to come, with the children read so far. */
  datatype Open = Open(name: string, attributes: seq<(string, string)>, children: seq<Element>)

  /** How much of a tag has been read since its opening bracket. */
  datatype Part =
    | Start
    | Closing(name: string)
    | Name(name: string)
    | Key(name: string, attributes: seq<(string, string)>, key: string)
    | Equals(name: string, attributes: seq<(string, string)>, key: string)
    | Value(name: string, attributes: seq<(string, string)>, key: string, value: string)
    | Ready(name: string, attributes: seq<(string, string)>)
    | Slash(name: string, attributes: seq<(string, string)>)

  /** `text` is what came since the last tag; `root` is the document's element once it is closed. */
  datatype Reader =
    | Between(stack: seq<Open>, text: string, root: Option<Element>)
    | InTag(stack: seq<Open>, text: string, root: Option<Element>, part: Part)
    | Malformed

  /** One more character of a tag; None when no tag continues like that. */
  function NextPart(p: Part, c: char): Option<Part> {
    match p
    case Start => if c == '/' then Some(Closing("")) else if NameChar(c) then Some(Name([c])) else None
    case Closing(name) => if NameChar(c) then Some(Closing(name + [c])) else None
    case Name(name) =>
      if NameChar(c) then Some(Name(name + [c]))
      else if c == ' ' then Some(Key(name, [], ""))
      else if c == '/' then Some(Slash(name, []))
      else None
    case Key(name, attributes, key) =>
      if NameChar(c) then Some(Key(name, attributes, key + [c]))
      else if c == '=' && key != "" then Some(Equals(name, attributes, key))
      else None
    case Equals(name, attributes, key) => if c == '"' then Some(Value(name, attributes, key, "")) else None
    case Value(name, attributes, key, value) =>
      if c == '"' then Some(Ready(name, attributes + [(key, value)]))
      else if !MarkupChar(c) then Some(Value(name, attributes, key, value + [c]))
      else None
    case Ready(name, attributes) =>
      if c == ' ' then Some(Key(name, attributes, ""))
      else if c == '/' then Some(Slash(name, attributes))
      else None
    case Slash(_, _) => None
  }

  function Step(r: Reader, c: char): Reader {
    match r
    case Between(stack, text, root) =>
      if c == '<' then InTag(stack, text, root, Start)
      else if !MarkupChar(c) then Between(stack, text + [c], root)
      else Malformed
    case InTag(stack, text, root, part) =>
      if c == '>' then EndTag(stack, text, root, part)
      else
        (match NextPart(part, c)
         case None => Malformed
         case Some(next) => InTag(stack, text, root, next))
    case Malformed => Malformed
  }

  function EndTag(stack: seq<Open>, text: string, root: Option<Element>, part: Part): Reader {
    match part
    case Closing(name) => CloseElement(stack, text, root, name)
    case Name(name) => OpenElement(stack, text, root, name, [])
    case Ready(name, attributes) => OpenElement(stack, text, root, name, attributes)
    case Slash(name, attributes) =>
      if Blank(text) then Finish(stack, root, Element(name, attributes, Empty)) else Malformed
    case _ => Malformed
  }

  /** No second root, and no text beside elements. */
  function OpenElement(stack: seq<Open>, text: string, root: Option<Element>, name: string,
                       attributes: seq<(string, string)>): Reader
  {
    if Blank(text) && (stack != [] || root.None?) then Between(stack + [Open(name, attributes, [])], "", root)
    else Malformed
  }

  /** A closing tag must name the innermost open element; content that starts on a new line is its children. */
  function CloseElement(stack: seq<Open>, text: string, root: Option<Element>, name: string): Reader {
    if stack == [] || stack[|stack| - 1].name != name then Malformed
    else
      var top, below := stack[|stack| - 1], stack[..|stack| - 1];
      if top.children == [] && !StartsLine(text) then Finish(below, root, Element(name, top.attributes, Text(text)))
      else if Blank(text) then Finish(below, root, Element(name, top.attributes, Children(top.children)))
      else Malformed
  }

  function Finish(stack: seq<Open>, root: Option<Element>, e: Element): Reader {
    if stack != [] then Between(Attach(stack, [e]), "", root)
    else if root.None? then Between([], "", Some(e))
    else Malformed
  }

  /** More children for the innermost open element. */
  function Attach(stack: seq<Open>, es: seq<Element>): seq<Open>
    requires stack != []
  {
    var top := stack[|stack| - 1];
    stack[..|stack| - 1] + [top.(children := top.children + es)]
  }

  function Read(r: Reader, t: string): Reader
    decreases t
  {
    if t == "" then r else Read(Step(r, t[0]), t[1..])
  }

  const DOCUMENT := Between([], "", None)

  /** The element a text is, if it is one document: a single root with nothing but blanks around it. */
  function Document(t: string): Option<Element> {
    match Read(DOCUMENT, t)
    case Between(stack, text, root) => if stack == [] && Blank(text) then root else None
    case _ => None
  }

  // ---- Reading tags -----------------------------------------------------------------------------------

  lemma {:induction false} ReadConcat(r: Reader, a: string, b: string)
    ensures Read(r, a + b) == Read(Read(r, a), b)
    decreases a
  {
    if a == "" {
      assert a + b == b;
    } else {
      assert (a + b)[1..] == a[1..] + b;
      ReadConcat(Step(r, a[0]), a[1..], b);
    }
  }

  lemma {:induction false} ReadText(stack: seq<Open>, text: string, root: Option<Element>, t: string)
    requires NoMarkup(t)
    ensures Read(Between(stack, text, root), t) == Between(stack, text + t, root)
    decreases t
  {
    if t == "" {
      assert text + t == text;
    } else {
      assert t[0] in t;
      ReadText(stack, text + [t[0]], root, t[1..]);
      assert text + [t[0]] + t[1..] == text + t;
    }
  }

  /** The characters of a tag, one after the other. */
  function Parts(p: Part, t: string): Option<Part>
    decreases t
  {
    if t == "" then Some(p)
    else
      match NextPart(p, t[0])
      case None => None
      case Some(q) => Parts(q, t[1..])
  }

  lemma {:induction false} PartsConcat(p: Part, a: string, b: string)
    requires Parts(p, a).Some?
    ensures Parts(p, a + b) == Parts(Parts(p, a).value, b)
    decreases a
  {
    hide NextPart;
    if a == "" {
      assert a + b == b;
    } else {
      assert (a + b)[1..] == a[1..] + b;
      PartsConcat(NextPart(p, a[0]).value, a[1..], b);
    }
  }

  lemma PartsOne(p: Part, c: char)
    ensures Parts(p, [c]) == NextPart(p, c)
  {
    hide NextPart;
    assert [c][1..] == "";
    if NextPart(p, c).Some? {
      assert Parts(NextPart(p, c).value, "") == NextPart(p, c);
    }
  }

  lemma NoPartBracket(p: Part)
    ensures NextPart(p, '>') == None
  {
  }

  lemma {:induction false} ReadParts(stack: seq<Open>, text: string, root: Option<Element>, p: Part, t: string)
    requires Parts(p, t).Some?
    ensures Read(InTag(stack, text, root, p), t) == InTag(stack, text, root, Parts(p, t).value)
    decreases t
  {
    NoPartBracket(p);
    hide NextPart;
    if t != "" {
      ReadParts(stack, text, root, NextPart(p, t[0]).value, t[1..]);
    }
  }

  /** A whole tag, from its opening to its closing bracket. */
  lemma ReadTag(stack: seq<Open>, text: string, root: Option<Element>, tag: string)
    requires Parts(Start, tag).Some?
    ensures Read(Between(stack, text, root), "<" + tag + ">") == EndTag(stack, text, root, Parts(Start, tag).value)
  {
    hide Parts;
    hide EndTag;
    var r := Between(stack, text, root);
    ReadConcat(r, "<" + tag, ">");
    ReadConcat(r, "<", tag);
    assert Read(r, "<") == InTag(stack, text, root, Start) by {
      assert "<"[1..] == "";
    }
    ReadParts(stack, text, root, Start, tag);
    var part := Parts(Start, tag).value;
    assert Read(InTag(stack, text, root, part), ">") == EndTag(stack, text, root, part) by {
      assert ">"[1..] == "";
    }
  }

  lemma {:induction false} PartsName(name: string, t: string)
    requires forall c :: c in t ==> NameChar(c)
    ensures Parts(Name(name), t) == Some(Name(name + t))
    decreases t
  {
    if t == "" {
      assert name + t == name;
    } else {
      PartsName(name + [t[0]], t[1..]);
      assert name + [t[0]] + t[1..] == name + t;
    }
  }

  lemma {:induction false} PartsClosing(name: string, t: string)
    requires forall c :: c in t ==> NameChar(c)
    ensures Parts(Closing(name), t) == Some(Closing(name + t))
    decreases t
  {
    if t == "" {
      assert name + t == name;
    } else {
      PartsClosing(name + [t[0]], t[1..]);
      assert name + [t[0]] + t[1..] == name + t;
    }
  }

  lemma {:induction false} PartsKey(name: string, attributes: seq<(string, string)>, key: string, t: string)
    requires forall c :: c in t ==> NameChar(c)
    ensures Parts(Key(name, attributes, key), t) == Some(Key(name, attributes, key + t))
    decreases t
  {
    if t == "" {
      assert key + t == key;
    } else {
      PartsKey(name, attributes, key + [t[0]], t[1..]);
      assert key + [t[0]] + t[1..] == key + t;
    }
  }

  lemma {:induction false} PartsValue(name: string, attributes: seq<(string, string)>, key: string, value: string,
                                      t: string)
    requires NoMarkup(t)
    ensures Parts(Value(name, attributes, key, value), t) == Some(Value(name, attributes, key, value + t))
    decreases t
  {
    if t == "" {
      assert value + t == value;
    } else {
      assert t[0] in t;
      PartsValue(name, attributes, key, value + [t[0]], t[1..]);
      assert value + [t[0]] + t[1..] == value + t;
    }
  }

  /** The state after a name and its attributes. */
  function Attributed(name: string, attributes: seq<(string, string)>): Part {
    if attributes == [] then Name(name) else Ready(name, attributes)
  }

  lemma PartsQuoted(name: string, attributes: seq<(string, string)>, key: string, value: string)
    requires NoMarkup(value)
    ensures Parts(Equals(name, attributes, key), "\"" + (value + "\""))
            == Some(Ready(name, attributes + [(key, value)]))
  {
    var atValue := Value(name, attributes, key, "");
    PartsOne(Equals(name, attributes, key), '"');
    PartsValue(name, attributes, key, "", value);
    PartsOne(Value(name, attributes, key, value), '"');
    assert "" + value == value;
    hide Parts;
    PartsConcat(Equals(name, attributes, key), "\"", value + "\"");
    PartsConcat(atValue, value, "\"");
  }

  lemma PartsAttribute(name: string, attributes: seq<(string, string)>, key: string, value: string)
    requires ValidName(key) && NoMarkup(value)
    ensures Parts(Attributed(name, attributes), Attribute(key, value)) == Some(Ready(name, attributes + [(key, value)]))
  {
    var atKey, quoted := Key(name, attributes, ""), "\"" + (value + "\"");
    PartsOne(Attributed(name, attributes), ' ');
    assert NextPart(Attributed(name, attributes), ' ') == Some(atKey);
    PartsKey(name, attributes, "", key);
    assert "" + key == key;
    PartsOne(Key(name, attributes, key), '=');
    assert NextPart(Key(name, attributes, key), '=') == Some(Equals(name, attributes, key));
    PartsQuoted(name, attributes, key, value);
    assert Attribute(key, value) == " " + (key + ("=" + quoted)) by {
      assert "=\"" == "=" + "\"";
      assert "=\"" + (value + "\"") == "=" + quoted;
    }
    hide Parts;
    hide NextPart;
    hide Attribute;
    PartsConcat(Attributed(name, attributes), " ", key + ("=" + quoted));
    PartsConcat(atKey, key, "=" + quoted);
    PartsConcat(Key(name, attributes, key), "=", quoted);
  }

  lemma {:induction false} PartsAttributes(name: string, attributes: seq<(string, string)>)
    requires ValidAttributes(attributes)
    ensures Parts(Name(name), Attributes(attributes)) == Some(Attributed(name, attributes))
  {
    if attributes != [] {
      var front, last := attributes[..|attributes| - 1], attributes[|attributes| - 1];
      PartsAttributes(name, front);
      PartsAttribute(name, front, last.0, last.1);
      hide Parts;
      hide Attribute;
      PartsConcat(Name(name), Attributes(front), Attribute(last.0, last.1));
      assert front + [last] == attributes;
    }
  }

  lemma PartsStart(name: string)
    requires ValidName(name)
    ensures Parts(Start, name) == Some(Name(name))
    ensures Parts(Start, "/" + name) == Some(Closing(name))
  {
    var first, rest := [name[0]], name[1..];
    assert name == first + rest;
    assert forall c :: c in rest ==> c in name;
    PartsOne(Start, name[0]);
    PartsName(first, rest);
    PartsOne(Start, '/');
    PartsClosing("", name);
    assert "" + name == name;
    hide Parts;
    PartsConcat(Start, first, rest);
    PartsConcat(Start, "/", name);
  }

  lemma PartsInside(e: Element)
    requires ValidName(e.name) && ValidAttributes(e.attributes)
    ensures Parts(Start, Inside(e)) == Some(Attributed(e.name, e.attributes))
    ensures Parts(Start, Inside(e) + "/") == Some(Slash(e.name, e.attributes))
  {
    hide Parts;
    hide Attributes;
    PartsStart(e.name);
    PartsAttributes(e.name, e.attributes);
    PartsConcat(Start, e.name, Attributes(e.attributes));
    PartsOne(Attributed(e.name, e.attributes), '/');
    PartsConcat(Start, Inside(e), "/");
  }

  // ---- Reading elements -------------------------------------------------------------------------------

  lemma {:induction false} IndentBlank(depth: nat)
    ensures NoMarkup(Indent(depth)) && Blank(Indent(depth)) && !StartsLine(Indent(depth))
  {
    if depth > 0 {
      IndentBlank(depth - 1);
    }
  }

  /** An element may stand here: inside another one, or as the root. */
  predicate Admits(stack: seq<Open>, text: string, root: Option<Element>) {
    Blank(text) && (stack != [] || root.None?)
  }

  /** What reading one element and its line end amounts to. */
  function After(stack: seq<Open>, root: Option<Element>, e: Element): Reader {
    if stack == [] then Between([], "\n", Some(e)) else Between(Attach(stack, [e]), "\n", root)
  }

  lemma FinishLine(stack: seq<Open>, root: Option<Element>, e: Element)
    requires stack != [] || root.None?
    ensures Read(Finish(stack, root, e), "\n") == After(stack, root, e)
  {
    var r := Finish(stack, root, e);
    ReadText(r.stack, "", r.root, "\n");
    assert "" + "\n" == "\n";
  }

  lemma ReadEmpty(e: Element, stack: seq<Open>, text: string, root: Option<Element>)
    requires WellFormed(e) && e.content.Empty? && Admits(stack, text, root)
    ensures Read(Between(stack, text, root), "<" + Inside(e) + "/>\n") == After(stack, root, e)
  {
    PartsInside(e);
    hide Inside;
    hide Parts;
    var tag := "<" + (Inside(e) + "/") + ">";
    assert "<" + Inside(e) + "/>\n" == tag + "\n";
    ReadConcat(Between(stack, text, root), tag, "\n");
    ReadTag(stack, text, root, Inside(e) + "/");
    FinishLine(stack, root, e);
  }

  /** The stack while the inside of e is being read. */
  function Pushed(stack: seq<Open>, e: Element): seq<Open> {
    stack + [Open(e.name, e.attributes, [])]
  }

  lemma ReadOpening(e: Element, stack: seq<Open>, text: string, root: Option<Element>, rest: string)
    requires WellFormed(e) && Admits(stack, text, root)
    ensures Read(Between(stack, text, root), "<" + Inside(e) + (">" + rest))
            == Read(Between(Pushed(stack, e), "", root), rest)
  {
    PartsInside(e);
    hide Inside;
    hide Parts;
    var tag := "<" + Inside(e) + ">";
    assert "<" + Inside(e) + (">" + rest) == tag + rest;
    ReadConcat(Between(stack, text, root), tag, rest);
    ReadTag(stack, text, root, Inside(e));
  }

  lemma ReadClosing(e: Element, stack: seq<Open>, text: string, root: Option<Element>)
    requires WellFormed(e) && stack != [] && stack[|stack| - 1].name == e.name
    ensures Read(Between(stack, text, root), CloseTag(e.name)) == Read(CloseElement(stack, text, root, e.name), "\n")
  {
    PartsStart(e.name);
    hide Parts;
    assert CloseTag(e.name) == "<" + ("/" + e.name) + ">" + "\n";
    ReadConcat(Between(stack, text, root), "<" + ("/" + e.name) + ">", "\n");
    ReadTag(stack, text, root, "/" + e.name);
  }

  lemma ReadLeaf(e: Element, stack: seq<Open>, text: string, root: Option<Element>)
    requires WellFormed(e) && e.content.Text? && Admits(stack, text, root)
    ensures Read(Between(stack, text, root), "<" + Inside(e) + (">" + e.content.text + CloseTag(e.name)))
            == After(stack, root, e)
  {
    hide Inside;
    hide CloseTag;
    var pushed := Pushed(stack, e);
    assert ">" + e.content.text + CloseTag(e.name) == ">" + (e.content.text + CloseTag(e.name));
    ReadOpening(e, stack, text, root, e.content.text + CloseTag(e.name));
    ReadConcat(Between(pushed, "", root), e.content.text, CloseTag(e.name));
    ReadText(pushed, "", root, e.content.text);
    assert "" + e.content.text == e.content.text;
    ReadClosing(e, pushed, e.content.text, root);
    assert pushed[..|pushed| - 1] == stack;
    FinishLine(stack, root, e);
  }

  /** The inside of a parent, given how its children are read. */
  lemma ReadInside(stack: seq<Open>, root: Option<Element>, body: string, es: seq<Element>, depth: nat)
    requires stack != []
    requires Read(Between(stack, "\n", root), body) == Between(Attach(stack, es), "\n", root)
    ensures Read(Between(stack, "", root), "\n" + body + Indent(depth))
            == Between(Attach(stack, es), "\n" + Indent(depth), root)
  {
    IndentBlank(depth);
    hide Indent;
    hide Attach;
    var inner := Between(stack, "", root);
    ReadConcat(inner, "\n" + body, Indent(depth));
    ReadConcat(inner, "\n", body);
    ReadText(stack, "", root, "\n");
    assert "" + "\n" == "\n";
    ReadText(Attach(stack, es), "\n", root, Indent(depth));
  }

  lemma MoveLineEnd(a: string, b: string, c: string)
    ensures ">\n" + a + b + c == ">" + (("\n" + a + b) + c)
  {
    assert ">\n" == ">" + "\n";
  }

  lemma ReadParent(e: Element, stack: seq<Open>, text: string, root: Option<Element>, body: string, depth: nat)
    requires WellFormed(e) && e.content.Children? && Admits(stack, text, root)
    requires var pushed := Pushed(stack, e);
             Read(Between(pushed, "\n", root), body) == Between(Attach(pushed, e.content.children), "\n", root)
    ensures Read(Between(stack, text, root), "<" + Inside(e) + (">\n" + body + Indent(depth) + CloseTag(e.name)))
            == After(stack, root, e)
  {
    hide WellFormed;
    hide Inside;
    hide CloseTag;
    hide Indent;
    hide Read;
    var pushed, es := Pushed(stack, e), e.content.children;
    var inside := "\n" + body + Indent(depth);
    MoveLineEnd(body, Indent(depth), CloseTag(e.name));
    ReadOpening(e, stack, text, root, inside + CloseTag(e.name));
    ReadConcat(Between(pushed, "", root), inside, CloseTag(e.name));
    ReadInside(pushed, root, body, es, depth);
    AttachPushed(stack, e, es);
    var full := Attach(pushed, es);
    ReadClosing(e, full, "\n" + Indent(depth), root);
    CloseParent(e, stack, root, depth);
    FinishLine(stack, root, e);
  }

  lemma AttachPushed(stack: seq<Open>, e: Element, es: seq<Element>)
    ensures Attach(Pushed(stack, e), es) == stack + [Open(e.name, e.attributes, es)]
  {
    assert Pushed(stack, e)[..|stack|] == stack;
    assert [] + es == es;
  }

  lemma CloseParent(e: Element, stack: seq<Open>, root: Option<Element>, depth: nat)
    requires e.content.Children?
    ensures CloseElement(stack + [Open(e.name, e.attributes, e.content.children)], "\n" + Indent(depth), root, e.name)
            == Finish(stack, root, e)
  {
    IndentBlank(depth);
    hide Indent;
    var full := stack + [Open(e.name, e.attributes, e.content.children)];
    assert full[..|full| - 1] == stack;
  }

  /**
    Main result: the text of any well-formed tree, wherever an element may stand, is read as that very
    tree: name, attributes, text and children.
   */
  lemma {:induction false} ReadElement(e: Element, depth: nat, stack: seq<Open>, text: string, root: Option<Element>)
    requires WellFormed(e) && Admits(stack, text, root)
    ensures Read(Between(stack, text, root), Render(e, depth)) == After(stack, root, e)
    decreases e, 1
  {
    hide Read;
    hide Inside;
    hide CloseTag;
    hide After;
    var at := text + Indent(depth);
    IndentBlank(depth);
    ReadText(stack, text, root, Indent(depth));
    match e.content
    case Empty =>
      ReadConcat(Between(stack, text, root), Indent(depth), "<" + Inside(e) + "/>\n");
      ReadEmpty(e, stack, at, root);
    case Text(content) =>
      ReadConcat(Between(stack, text, root), Indent(depth), "<" + Inside(e) + (">" + content + CloseTag(e.name)));
      ReadLeaf(e, stack, at, root);
    case Children(children) =>
      var body := RenderAll(children, depth + 1);
      ReadConcat(Between(stack, text, root), Indent(depth),
                 "<" + Inside(e) + (">\n" + body + Indent(depth) + CloseTag(e.name)));
      ReadElements(children, depth + 1, Pushed(stack, e), root);
      ReadParent(e, stack, at, root, body, depth);
  }

  lemma {:induction false} ReadElements(es: seq<Element>, depth: nat, stack: seq<Open>, root: Option<Element>)
    requires (forall e :: e in es ==> WellFormed(e)) && stack != []
    ensures Read(Between(stack, "\n", root), RenderAll(es, depth)) == Between(Attach(stack, es), "\n", root)
    decreases es, 0
  {
    hide WellFormed;
    if es == [] {
      AttachNone(stack);
    } else {
      var front, last := es[..|es| - 1], es[|es| - 1];
      ReadElements(front, depth, stack, root);
      ReadElement(last, depth, Attach(stack, front), "\n", root);
      hide Read;
      ReadConcat(Between(stack, "\n", root), RenderAll(front, depth), Render(last, depth));
      AttachMore(stack, front, last);
      assert front + [last] == es;
    }
  }

  lemma AttachNone(stack: seq<Open>)
    requires stack != []
    ensures Attach(stack, []) == stack
  {
    var top := stack[|stack| - 1];
    assert top.children + [] == top.children;
  }

  lemma AttachMore(stack: seq<Open>, es: seq<Element>, e: Element)
    requires stack != []
    ensures Attach(Attach(stack, es), [e]) == Attach(stack, es + [e])
  {
    var top := stack[|stack| - 1];
    assert top.children + es + [e] == top.children + (es + [e]);
  }

  /** A document is read back as the tree it was written from. */
  lemma DocumentRoundTrip(e: Element, depth: nat)
    requires WellFormed(e)
    ensures Document("\n" + Render(e, depth)) == Some(e)
  {
    hide WellFormed;
    hide Render;
    ReadText([], "", None, "\n");
    assert "" + "\n" == "\n";
    ReadElement(e, depth, [], "\n", None);
    hide Read;
    ReadConcat(DOCUMENT, "\n", Render(e, depth));
  }

  lemma {:induction false} MalformedStays(t: string)
    ensures Read(Malformed, t) == Malformed
    decreases t
  {
    if t != "" {
      MalformedStays(t[1..]);
    }
  }

  /** The reader insists on a single root: a second element makes any document malformed. */
  lemma SecondRootRefused(e: Element, f: Element, depth: nat)
    requires WellFormed(e) && WellFormed(f)
    ensures Document("\n" + Render(e, depth) + Render(f, depth)) == None
  {
    hide Render;
    hide Read;
    hide WellFormed;
    ReadConcat(DOCUMENT, "\n" + Render(e, depth), Render(f, depth));
    ReadConcat(DOCUMENT, "\n", Render(e, depth));
    ReadText([], "", None, "\n");
    assert "" + "\n" == "\n";
    ReadElement(e, depth, [], "\n", None);
    SecondRoot(f, depth, e);
  }

  /** Every element's text starts with its indent and its opening or only tag. */
  lemma RenderStart(e: Element, depth: nat) returns (tag: string, rest: string)
    ensures tag == (if e.content.Empty? then Inside(e) + "/" else Inside(e))
    ensures Render(e, depth) == Indent(depth) + ("<" + tag + ">" + rest)
  {
    hide Inside;
    hide Indent;
    hide CloseTag;
    var inside := Inside(e);
    match e.content
    case Empty =>
      tag, rest := inside + "/", "\n";
      assert "<" + inside + "/>\n" == "<" + tag + ">" + rest;
    case Text(text) =>
      tag, rest := inside, text + CloseTag(e.name);
      assert ">" + text + CloseTag(e.name) == ">" + rest;
      assert "<" + inside + (">" + rest) == "<" + tag + ">" + rest;
    case Children(children) =>
      var body := RenderAll(children, depth + 1);
      hide RenderAll;
      tag, rest := inside, ("\n" + body + Indent(depth)) + CloseTag(e.name);
      MoveLineEnd(body, Indent(depth), CloseTag(e.name));
      assert "<" + inside + (">" + rest) == "<" + tag + ">" + rest;
  }

  lemma SecondRoot(f: Element, depth: nat, e: Element)
    requires WellFormed(f)
    ensures Read(Between([], "\n", Some(e)), Render(f, depth)) == Malformed
  {
    hide Render;
    hide Inside;
    hide Indent;
    hide Read;
    hide Parts;
    var tag, rest := RenderStart(f, depth);
    var start, at := Between([], "\n", Some(e)), "\n" + Indent(depth);
    IndentBlank(depth);
    ReadText([], "\n", Some(e), Indent(depth));
    PartsInside(f);
    ReadConcat(start, Indent(depth), "<" + tag + ">" + rest);
    ReadConcat(Between([], at, Some(e)), "<" + tag + ">", rest);
    ReadTag([], at, Some(e), tag);
    MalformedStays(rest);
  }
}
