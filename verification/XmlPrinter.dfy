/** TiXmlPrinter (NSP/tinyxml.cpp, NSP/tinyxml.h) at work on a tree, and what a whole
    document reads back as. */
module XmlPrinter {
  import opened XmlText
  import opened XmlTree

  function Repeat(s: Str, n: nat): Str {
    if n == 0 then [] else Repeat(s, n - 1) + s
  }

  lemma {:induction false} RepeatNothing(n: nat)
    ensures Repeat([], n) == []
  {
    if n > 0 { RepeatNothing(n - 1); }
  }

  /** TiXmlAttribute::Print into a string. */
  method PrintAttribute(a: Attr, str: Str) returns (r: Str)
    requires CString(a.value)
    ensures r == str + PrintAttr(a)
  {
    hide Encode, HasRef;
    var n := EncodeString(a.name, []);
    var v := EncodeString(AsStr(a.value), []);
    var e: Str := Encode(AsStr(a.value));
    assert n == Encode(a.name) && v == e;
    if '\"' !in a.value {
      r := str + n + ['=', '\"'] + v + ['\"'];
      assert r == str + (n + ['=', '\"'] + v + ['\"']);
    } else {
      r := str + n + ['=', '\''] + v + ['\''];
      assert r == str + (n + ['=', '\''] + v + ['\'']);
    }
  }

  class Printer {
    var depth: nat
    var simpleTextPrint: bool
    var buffer: Str
    var indent: Str
    var lineBreak: Str

    ghost predicate Streaming()
      reads this
    {
      indent == [] && lineBreak == []
    }

    constructor ()
      ensures buffer == [] && depth == 0 && !simpleTextPrint && indent == [' ', ' ', ' ', ' '] && lineBreak == ['\n']
    {
      depth, simpleTextPrint, buffer := 0, false, [];
      indent, lineBreak := [' ', ' ', ' ', ' '], ['\n'];
    }

    method SetStreamPrinting()
      modifies this`indent, this`lineBreak
      ensures Streaming()
    {
      indent, lineBreak := [], [];
    }

    method DoIndent()
      modifies this`buffer
      ensures buffer == old(buffer) + Repeat(indent, depth)
    {
      for i := 0 to depth
        invariant buffer == old(buffer) + Repeat(indent, i)
      {
        buffer := buffer + indent;
      }
    }

    method DoLineBreak()
      modifies this`buffer
      ensures buffer == old(buffer) + lineBreak
    {
      buffer := buffer + lineBreak;
    }

    method Attributes(attrs: seq<Attr>)
      requires forall a <- attrs :: CString(a.value)
      modifies this`buffer
      ensures buffer == old(buffer) + PrintAttrs(attrs)
    {
      hide PrintAttr, CString;
      var rest := attrs;
      while rest != []
        invariant forall a <- rest :: CString(a.value)
        invariant old(buffer) + PrintAttrs(attrs) == buffer + PrintAttrs(rest)
        decreases |rest|
      {
        ghost var before := buffer;
        buffer := buffer + [' '];
        buffer := PrintAttribute(rest[0], buffer);
        assert buffer + PrintAttrs(rest[1..]) == before + PrintAttrs(rest);
        rest := rest[1..];
      }
    }

    /** Whether the only child is text. */
    static predicate SimpleText(n: Node)
      requires n.Element?
    {
      |n.children| == 1 && n.children[0].Text?
    }

    /** What VisitEnter and VisitExit print of an element. */
    static function Opening(n: Node): Str
      requires n.Element? && forall a <- n.attrs :: CString(a.value)
    {
      ['<'] + n.name + PrintAttrs(n.attrs) + if n.children == [] then [' ', '/', '>'] else ['>']
    }

    static function Closing(n: Node): Str
      requires n.Element?
    {
      if n.children == [] then [] else EndTag(n.name)
    }

    method StartTag(n: Node)
      requires n.Element? && forall a <- n.attrs :: CString(a.value)
      modifies this`buffer
      ensures buffer == old(buffer) + Repeat(indent, depth) + (['<'] + n.name + PrintAttrs(n.attrs))
    {
      hide PrintAttrs, CString, Repeat;
      DoIndent();
      buffer := buffer + ['<'];
      buffer := buffer + n.name;
      Attributes(n.attrs);
    }

    method VisitEnter(n: Node)
      requires n.Element? && (forall a <- n.attrs :: CString(a.value)) && !simpleTextPrint
      modifies this`buffer, this`depth, this`simpleTextPrint
      ensures depth == old(depth) + 1 && simpleTextPrint == SimpleText(n)
      ensures buffer == old(buffer) + Repeat(indent, old(depth)) + Opening(n) + if SimpleText(n) then [] else lineBreak
      ensures Streaming() ==> buffer == old(buffer) + Opening(n)
    {
      hide PrintAttrs, CString, Repeat;
      RepeatNothing(depth);
      ghost var start := buffer;
      StartTag(n);
      if n.children == [] {
        buffer := buffer + [' ', '/', '>'];
        DoLineBreak();
      } else {
        buffer := buffer + ['>'];
        if n.children[0].Text? && |n.children| == 1 {
          simpleTextPrint := true;
        } else {
          DoLineBreak();
        }
      }
      depth := depth + 1;
    }

    method VisitExit(n: Node)
      requires n.Element? && depth > 0 && simpleTextPrint == SimpleText(n)
      modifies this`buffer, this`depth, this`simpleTextPrint
      ensures depth == old(depth) - 1 && !simpleTextPrint
      ensures n.children == [] ==> buffer == old(buffer)
      ensures n.children != [] ==> buffer == old(buffer) + (if SimpleText(n) then [] else Repeat(indent, depth)) + EndTag(n.name) + lineBreak
      ensures Streaming() ==> buffer == old(buffer) + Closing(n)
    {
      hide Repeat;
      ghost var start := buffer;
      depth := depth - 1;
      RepeatNothing(depth);
      if n.children != [] {
        if simpleTextPrint {
          simpleTextPrint := false;
        } else {
          DoIndent();
        }
        buffer := buffer + ['<', '/'];
        buffer := buffer + n.name;
        buffer := buffer + ['>'];
        DoLineBreak();
        ghost var gap := if SimpleText(n) then [] else Repeat(indent, depth);
        assert buffer == start + gap + EndTag(n.name) + lineBreak;
      }
    }

    method VisitText(n: Node)
      requires n.Text? && CString(n.value)
      modifies this`buffer
      ensures simpleTextPrint ==> buffer == old(buffer) + Encode(AsStr(n.value))
      ensures !simpleTextPrint ==> buffer == old(buffer) + Repeat(indent, depth) + Encode(AsStr(n.value)) + lineBreak
      ensures Streaming() ==> buffer == old(buffer) + Encode(AsStr(n.value))
    {
      hide Encode, HasRef, Repeat;
      RepeatNothing(depth);
      if simpleTextPrint {
        var str := EncodeString(AsStr(n.value), []);
        buffer := buffer + str;
      } else {
        DoIndent();
        var str := EncodeString(AsStr(n.value), []);
        buffer := buffer + str;
        DoLineBreak();
      }
    }

    lemma ElementPrinted(n: Node)
      requires n.Element? && Printable(n)
      ensures (forall a <- n.attrs :: CString(a.value)) && AllPrintable(n.children)
      ensures Print(n) == Opening(n) + PrintAll(n.children) + Closing(n)
    {
      hide PrintAttrs, CString, EndTag, AllPrintable;
      NothingPrinted();
      assert Opening(n) + [] + [] == Opening(n);
    }

    /** TiXmlNode::Accept: in stream printing the buffer gets the printed form of the tree,
        and the printer's other state is as before. */
    method Accept(n: Node)
      requires Printable(n) && Streaming() && (simpleTextPrint ==> n.Text?)
      modifies this`buffer, this`depth, this`simpleTextPrint
      ensures buffer == old(buffer) + Print(n) && depth == old(depth) && simpleTextPrint == old(simpleTextPrint)
      decreases n, 1
    {
      match n
      case Text(v) =>
        PrintedText(n);
        VisitText(n);
      case Element(_, _, children) =>
        AcceptElement(n);
    }

    method AcceptElement(n: Node)
      requires n.Element? && Printable(n) && Streaming() && !simpleTextPrint
      modifies this`buffer, this`depth, this`simpleTextPrint
      ensures buffer == old(buffer) + Print(n) && depth == old(depth) && !simpleTextPrint
      decreases n, 0
    {
      hide Printable, AllPrintable, PrintAttrs, Print, PrintAll, EndTag, CString, Opening, Closing;
      ghost var start := buffer;
      ElementPrinted(n);
      VisitEnter(n);
      AcceptAll(n.children);
      VisitExit(n);
      assert buffer == start + (Opening(n) + PrintAll(n.children) + Closing(n));
    }

    method AcceptAll(ns: seq<Node>)
      requires AllPrintable(ns) && Streaming() && (simpleTextPrint ==> forall n <- ns :: n.Text?)
      modifies this`buffer, this`depth, this`simpleTextPrint
      ensures buffer == old(buffer) + PrintAll(ns) && depth == old(depth) && simpleTextPrint == old(simpleTextPrint)
      decreases ns, 2
    {
      hide Printable, AllPrintable, Print, PrintAll;
      NothingPrinted();
      assert ns[0..] == ns;
      for i := 0 to |ns|
        invariant AllPrintable(ns[i..]) && old(buffer) + PrintAll(ns) == buffer + PrintAll(ns[i..])
        invariant depth == old(depth) && simpleTextPrint == old(simpleTextPrint) && Streaming()
      {
        ghost var before, rest := buffer, ns[i..];
        FirstPrinted(rest);
        assert rest[0] == ns[i] && rest[1..] == ns[i + 1..];
        Accept(ns[i]);
        assert buffer + PrintAll(rest[1..]) == before + (Print(ns[i]) + PrintAll(rest[1..]));
      }
    }
  }

  lemma PrintedText(n: Node)
    requires n.Text? && Printable(n)
    ensures CString(n.value) && Print(n) == Encode(AsStr(n.value))
  {
  }

  lemma NothingPrinted()
    ensures PrintAll([]) == []
  {
  }

  // ----- Documents -----

  /** TiXmlDocument::Parse, at what follows white space. */
  function ParseNodes(done: seq<Node>, t: Str): Parse<seq<Node>>
    requires t != [] ==> !IsWhiteSpace(t[0])
    decreases |t|
  {
    if t == [] || t[0] != '<' then if done == [] then Stopped(Null) else At(done, t)
    else if |t| > 1 && NameStart(t[1]) then
      match ParseElement(t)
      case Stopped(w) => Stopped(w)
      case At(e, rest) => ParseNodes(done + [e], Skip(rest))
    else Stopped(OtherNode)
  }

  function ParseDocument(s: Str): Parse<seq<Node>> {
    if s == [] then Stopped(Null) else ParseNodes([], Skip(s))
  }

  /** A legal tree that is printed in stream form and parsed as a document comes back as the
      document's one node, and nothing of the text is left. */
  lemma DocumentRoundTrip(n: Node)
    requires n.Element? && Legal(n)
    ensures ParseDocument(Print(n)) == At([n], [])
  {
    hide Legal, Print, ParseElement, NameStart;
    var s := Print(n);
    ElementHead(n, []);
    ElementParsed(n, []);
    assert s + [] == s && [] + [n] == [n];
    NoSkip(s);
    assert Skip([]) == [];
    assert ParseNodes([n], []) == At([n], []);
  }
}
