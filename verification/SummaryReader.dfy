/**
  Reading a summary line back: an independent reader that takes the line apart at its spaces and
  knows the captions, and what every line says of the frame it was written for.
 */
module SummaryReader {
  import opened Wrappers
  import opened Bytes
  import opened ObjectProperties
  import opened FrameDecoder
  import opened Texts
  import opened NameLookup
  import opened NameTables
  import opened Summary
  import opened TruncatedSummary

  // ---- Words ------------------------------------------------------------------------------------------

  /** The pieces of a text between its spaces. */
  function Words(t: string): (ws: seq<string>)
    ensures ws != []
  {
    if t == "" then [""]
    else
      var ws := Words(t[1..]);
      if t[0] == ' ' then [""] + ws else [[t[0]] + ws[0]] + ws[1..]
  }

  function Join(ws: seq<string>): string
    requires ws != []
  {
    if |ws| == 1 then ws[0] else ws[0] + (" " + Join(ws[1..]))
  }

  ghost predicate AllWords(ws: seq<string>) {
    forall w :: w in ws ==> NoSpace(w)
  }

  lemma {:induction false} WordsFirst(w: string, more: string)
    requires NoSpace(w)
    ensures Words(w) == [w]
    ensures Words(w + (" " + more)) == [w] + Words(more)
    decreases w
  {
    var t := w + (" " + more);
    if w == "" {
      assert t[1..] == more;
    } else {
      WordsFirst(w[1..], more);
      assert t[1..] == w[1..] + (" " + more);
      assert [w[0]] + w[1..] == w;
    }
  }

  lemma {:induction false} WordsOfJoin(ws: seq<string>)
    requires ws != [] && AllWords(ws)
    ensures Words(Join(ws)) == ws
  {
    if |ws| == 1 {
      WordsFirst(ws[0], "");
      assert ws == [ws[0]];
    } else {
      WordsOfJoin(ws[1..]);
      WordsFirst(ws[0], Join(ws[1..]));
      assert ws == [ws[0]] + ws[1..];
    }
  }

  lemma {:induction false} JoinConcat(a: seq<string>, b: seq<string>)
    requires a != [] && b != []
    ensures Join(a + b) == Join(a) + (" " + Join(b))
  {
    if |a| == 1 {
      assert (a + b)[1..] == b;
    } else {
      assert (a + b)[1..] == a[1..] + b;
      JoinConcat(a[1..], b);
      Associate(a[0], " " + Join(a[1..]), " " + Join(b));
      Associate(" ", Join(a[1..]), " " + Join(b));
    }
  }

  // ---- Parts of words -----------------------------------------------------------------------------------

  function Before(t: string, c: char): string {
    if t == "" || t[0] == c then "" else [t[0]] + Before(t[1..], c)
  }

  function After(t: string, c: char): Option<string> {
    if t == "" then None else if t[0] == c then Some(t[1..]) else After(t[1..], c)
  }

  lemma {:induction false} CutAt(a: string, c: char, b: string)
    requires c !in a
    ensures Before(a + ([c] + b), c) == a && After(a + ([c] + b), c) == Some(b)
    decreases a
  {
    var t := a + ([c] + b);
    if a == "" {
      assert t[1..] == b;
    } else {
      CutAt(a[1..], c, b);
      assert t[1..] == a[1..] + ([c] + b);
      assert [a[0]] + a[1..] == a;
    }
  }

  lemma {:induction false} NoCut(a: string, c: char)
    requires c !in a
    ensures Before(a, c) == a && After(a, c) == None
  {
    if a != "" {
      NoCut(a[1..], c);
      assert [a[0]] + a[1..] == a;
    }
  }

  // ---- The reader -----------------------------------------------------------------------------------------

  /** A word of a table, or a kind of number and the number. */
  datatype Word = Name(name: string) | Numbered(kind: string, number: Option<nat>)

  datatype Subject = Unknown | BvlcFunction(code: byte) | NetworkLayer | Pdu(pduType: byte)

  /** An object's type word, its instance, its property word and the index in brackets. */
  datatype Item = Item(typeWord: Word, instance: Option<nat>, property: Word, index: Option<nat>)

  datatype Route = Route(dnet: Option<nat>, dadr: Option<seq<byte>>)

  datatype Line = Line(subject: Subject, code: Option<Word>, item: Option<Item>, route: Option<Route>)

  /** The PDU types of Clause 20.1 by the captions of a summary. */
  function SubjectOf(caption: string): Subject {
    match caption
    case "ConfirmedRequest" => Pdu(0)
    case "Unconfirmed" => Pdu(1)
    case "SimpleACK" => Pdu(2)
    case "ComplexACK" => Pdu(3)
    case "SegmentACK" => Pdu(4)
    case "Error" => Pdu(5)
    case "Reject" => Pdu(6)
    case "Abort" => Pdu(7)
    case "Network-Layer-Message" => NetworkLayer
    case _ => Unknown
  }

  function ReadWord(w: string): Word {
    match After(w, '=')
    case None => Name(w)
    case Some(digits) => Numbered(Before(w, '='), DecimalValue(digits))
  }

  /** `7.Present_Value[3]` after the word for the object's type. */
  function ReadItem(typeWord: string, w: string): Item {
    var property := Default(After(w, '.'), "");
    Item(ReadWord(typeWord), DecimalValue(Before(w, '.')), ReadWord(Before(property, '[')),
         match After(property, '[')
         case None => None
         case Some(index) => DecimalValue(Before(index, ']')))
  }

  function Default(t: Option<string>, default: string): string {
    if t.Some? then t.value else default
  }

  function IsRoute(w: string): bool {
    Before(w, '=') == "DNET" && After(w, '=').Some?
  }

  function ReadRoute(ws: seq<string>): Option<Route> {
    if ws == [] then None
    else
      var dadr := if |ws| > 1 && Before(ws[1], '=') == "DADR" then After(ws[1], '=') else None;
      Some(Route(DecimalValue(Default(After(ws[0], '='), "")), if dadr.Some? then HexDecode(dadr.value) else None))
  }

  /** What follows the caption and its code: an object and property, a route, both or nothing. */
  function ReadRest(subject: Subject, code: Option<Word>, ws: seq<string>): Line {
    if |ws| >= 2 && !IsRoute(ws[0]) then Line(subject, code, Some(ReadItem(ws[0], ws[1])), ReadRoute(ws[2..]))
    else Line(subject, code, None, ReadRoute(ws))
  }

  function ReadWords(ws: seq<string>): Line
    requires ws != []
  {
    if ws[0] == "BVLC" && |ws| == 2 then
      var octet := Default(After(ws[1], '='), "");
      var code := if |octet| == 4 && octet[..2] == "0x" then OctetValue(octet[2], octet[3]) else None;
      Line(if code.Some? then BvlcFunction(code.value) else Unknown, None, None, None)
    else if After(ws[0], ':') == Some("") && |ws| > 1 then
      ReadRest(SubjectOf(Before(ws[0], ':')), Some(ReadWord(ws[1])), ws[2..])
    else ReadRest(SubjectOf(ws[0]), None, ws[1..])
  }

  function ReadLine(t: string): Line {
    ReadWords(Words(t))
  }

  // ---- What a line has to say of a frame --------------------------------------------------------------------

  /** The entry of the list at the code, or the kind and the number. */
  predicate SaysCode(list: seq<string>, kind: string, code: Option<byte>, w: Option<Word>) {
    if code.None? then w == None
    else if code.value < |list| then w == Some(Name(list[code.value]))
    else w == Some(Numbered(kind, Some(code.value)))
  }

  ghost predicate HasRow(table: seq<IdName>, id: nat) {
    exists k :: 0 <= k < |table| && table[k].id == id
  }

  ghost predicate IsRow(table: seq<IdName>, id: nat, w: Word) {
    w.Name? && exists k :: 0 <= k < |table| && table[k] == IdName(id, w.name)
  }

  /** Names where both tables have a row, numbers where one has not; instance and index always. */
  ghost predicate SaysItem(names: Names, op: ObjectProperty, item: Item) {
    && item.instance == Some(op.objectInstance) && item.index == op.arrayIndex
    && if HasRow(names.objectTypes, op.objectType) && HasRow(names.properties, op.propertyId) then
         && IsRow(names.objectTypes, op.objectType, item.typeWord)
         && IsRow(names.properties, op.propertyId, item.property)
       else
         && item.typeWord == Numbered("object-type", Some(op.objectType))
         && item.property == Numbered("property", Some(op.propertyId))
  }

  /** Services by the confirmed list, except those of unconfirmed requests; reasons by the list of their PDU. */
  predicate SaysPduCode(names: Names, a: Apdu, w: Option<Word>) {
    match a.pduType
    case 1 => SaysCode(names.unconfirmed, "service", a.serviceChoice, w)
    case 4 => w == None
    case 6 => SaysCode(names.reject, "reason", a.reason, w)
    case 7 => SaysCode(names.abort, "reason", a.reason, w)
    case _ => SaysCode(names.confirmed, "service", a.serviceChoice, w)
  }

  ghost predicate SaysApdu(names: Names, a: Apdu, line: Line) {
    && line.subject == Pdu(a.pduType) && SaysPduCode(names, a, line.code)
    && (if a.reference.Some? then line.item.Some? && SaysItem(names, a.reference.value, line.item.value)
        else line.item == None)
  }

  predicate SaysMessage(names: Names, t: byte, line: Line) {
    && line.subject == NetworkLayer && line.item == None
    && line.code == Some(if t in names.network then Name(names.network[t]) else Numbered("type", Some(t)))
  }

  predicate SaysRoute(n: Npdu, route: Option<Route>) {
    if n.HasDest() then route == Some(Route(Some(n.dnet), if n.dadr == [] then None else Some(n.dadr)))
    else route == None
  }

  ghost predicate Says(names: Names, f: Frame, line: Line) {
    match f
    case NotBacnetIp => line == Line(Unknown, None, None, None)
    case Bvlc(code, None) => line == Line(BvlcFunction(code), None, None, None)
    case Bvlc(_, Some(n)) =>
      if n.IsNetworkMessage() then SaysMessage(names, n.MessageType(), line) && SaysRoute(n, line.route)
      else if n.payload.Application? then
        && SaysRoute(n, line.route)
        && if n.payload.apdu.pduType < 8 then SaysApdu(names, n.payload.apdu, line)
           else line.subject == Unknown && line.code == None && line.item == None
      else line == Line(Unknown, None, None, None)
  }

  // ---- The words of a line ------------------------------------------------------------------------------------

  function NumberWord(kind: string, n: nat): string {
    kind + ("=" + Decimal(n))
  }

  function CodeWords(caption: string, kind: string, code: Option<byte>, name: Option<string>): seq<string> {
    if code.None? then [caption]
    else [caption + ":", if name.Some? then name.value else NumberWord(kind, code.value)]
  }

  lemma LabelledWords(caption: string, kind: string, code: Option<byte>, name: Option<string>)
    ensures Labelled(caption, kind, code, name) == Join(CodeWords(caption, kind, code, name))
  {
    hide Decimal;
    if code.Some? {
      assert ": " == ":" + " ";
      var word := if name.Some? then name.value else NumberWord(kind, code.value);
      assert caption + ": " + word == caption + ":" + (" " + word);
      if name.None? {
        Associate(caption + ": ", kind, "=");
        Associate(caption + ": ", kind + "=", Decimal(code.value));
        Associate(kind, "=", Decimal(code.value));
      }
      assert CodeWords(caption, kind, code, name)[1..] == [word];
    }
  }

  function IndexText(index: Option<nat>): string {
    if index.Some? then "[" + (Decimal(index.value) + "]") else ""
  }

  function InstanceWord(op: ObjectProperty, property: string): string {
    Decimal(op.objectInstance) + ("." + (property + IndexText(op.arrayIndex)))
  }

  function ItemWords(typeName: Option<string>, propertyName: Option<string>, op: ObjectProperty): seq<string> {
    if typeName.Some? && propertyName.Some? then [typeName.value, InstanceWord(op, propertyName.value)]
    else [NumberWord("object-type", op.objectType), InstanceWord(op, NumberWord("property", op.propertyId))]
  }

  lemma JoinTwo(a: string, b: string)
    ensures Join([a, b]) == a + (" " + b)
  {
    assert [a, b][1..] == [b];
  }

  lemma ItemText(typeName: Option<string>, propertyName: Option<string>, op: ObjectProperty)
    ensures ReferenceText(typeName, propertyName, op) == " " + Join(ItemWords(typeName, propertyName, op))
  {
    hide Decimal;
    var ws := ItemWords(typeName, propertyName, op);
    JoinTwo(ws[0], ws[1]);
    var index := if op.arrayIndex.Some? then "[" + Decimal(op.arrayIndex.value) + "]" else "";
    assert index == IndexText(op.arrayIndex);
    hide Join;
    if typeName.Some? && propertyName.Some? {
      NamedItemText(typeName.value, Decimal(op.objectInstance), propertyName.value, index);
    } else {
      NumberedItemText(Decimal(op.objectType), Decimal(op.objectInstance), Decimal(op.propertyId), index);
    }
  }

  lemma NamedItemText(t: string, i: string, p: string, index: string)
    ensures (" " + t + " " + i + "." + p) + index == " " + (t + (" " + (i + ("." + (p + index)))))
  {
  }

  lemma NumberedItemText(t: string, i: string, p: string, index: string)
    ensures (" object-type=" + t + " " + i + ".property=" + p) + index
            == " " + (("object-type" + ("=" + t)) + (" " + (i + ("." + (("property" + ("=" + p)) + index)))))
  {
    assert " object-type=" == " " + ("object-type" + "=");
    assert ".property=" == "." + ("property" + "=");
  }

  function RouteWordList(n: Npdu): seq<string> {
    if !n.HasDest() then []
    else [NumberWord("DNET", n.dnet)] + (if n.dadr != [] then ["DADR" + ("=" + Hex(n.dadr))] else [])
  }

  lemma KeyWord(prefix: string, key: string, value: string, more: string)
    requires prefix == " " + (key + "=")
    ensures prefix + (value + more) == " " + ((key + ("=" + value)) + more)
  {
    Associate(key, "=", value);
    Associate(" ", key + "=", value);
    Associate(prefix, value, more);
    Associate(" ", key + ("=" + value), more);
  }

  lemma RouteJoined(n: Npdu)
    ensures RouteWords(n) == if n.HasDest() then " " + Join(RouteWordList(n)) else ""
  {
    hide Decimal;
    hide Hex;
    hide Join;
    if n.HasDest() {
      assert " DNET=" == " " + ("DNET" + "=");
      assert " DADR=" == " " + ("DADR" + "=");
      var net, mac := NumberWord("DNET", n.dnet), "DADR" + ("=" + Hex(n.dadr));
      KeyWord(" DNET=", "DNET", Decimal(n.dnet), StationWord(n.dadr));
      KeyWord(" DADR=", "DADR", Hex(n.dadr), "");
      JoinOne(net);
      JoinTwo(net, mac);
      assert mac + "" == mac && net + "" == net && Hex(n.dadr) + "" == Hex(n.dadr);
      hide NumberWord;
      assert RouteWordList(n) == if n.dadr == [] then [net] else [net, mac];
    }
  }

  lemma JoinOne(a: string)
    ensures Join([a]) == a
  {
  }

  // ---- Reading words --------------------------------------------------------------------------------------------

  lemma PlainWord(t: string)
    requires Plain(t)
    ensures NoSpace(t) && '=' !in t && '[' !in t && '.' !in t
  {
  }

  lemma NameRead(name: string)
    requires Plain(name)
    ensures ReadWord(name) == Name(name) && !IsRoute(name) && NoSpace(name)
  {
    PlainWord(name);
    NoCut(name, '=');
  }

  lemma NumberRead(kind: string, n: nat)
    requires Plain(kind)
    ensures ReadWord(NumberWord(kind, n)) == Numbered(kind, Some(n))
    ensures Before(NumberWord(kind, n), '=') == kind && After(NumberWord(kind, n), '=') == Some(Decimal(n))
    ensures NoSpace(NumberWord(kind, n))
  {
    PlainWord(kind);
    DecimalPlain(n);
    PlainWord(Decimal(n));
    DecimalRoundTrip(n);
    hide Decimal;
    hide DecimalValue;
    CutAt(kind, '=', Decimal(n));
  }

  /** A decimal has no bracket that closes. */
  lemma {:induction false} DecimalDigits(n: nat)
    ensures ']' !in Decimal(n)
  {
    if n >= 10 {
      DecimalDigits(n / 10);
    }
  }

  lemma IndexRead(property: string, index: Option<nat>)
    requires '[' !in property
    ensures Before(property + IndexText(index), '[') == property
    ensures After(property + IndexText(index), '[')
            == if index.Some? then Some(Decimal(index.value) + "]") else None
    ensures index.Some? ==> DecimalValue(Before(Decimal(index.value) + "]", ']')) == index
  {
    if index.Some? {
      DecimalDigits(index.value);
      DecimalRoundTrip(index.value);
      hide Decimal;
      hide DecimalValue;
      CutAt(property, '[', Decimal(index.value) + "]");
      CutAt(Decimal(index.value), ']', "");
      assert Decimal(index.value) + "]" == Decimal(index.value) + ("]" + "");
    } else {
      assert property + "" == property;
      NoCut(property, '[');
    }
  }

  lemma InstanceRead(typeWord: string, op: ObjectProperty, property: string)
    requires '[' !in property
    ensures ReadItem(typeWord, InstanceWord(op, property))
            == Item(ReadWord(typeWord), Some(op.objectInstance), ReadWord(property), op.arrayIndex)
  {
    DecimalPlain(op.objectInstance);
    PlainWord(Decimal(op.objectInstance));
    DecimalRoundTrip(op.objectInstance);
    hide Decimal;
    hide DecimalValue;
    hide ReadWord;
    CutAt(Decimal(op.objectInstance), '.', property + IndexText(op.arrayIndex));
    IndexRead(property, op.arrayIndex);
    hide IndexText;
  }

  lemma IndexNoSpace(index: Option<nat>)
    ensures NoSpace(IndexText(index))
  {
    if index.Some? {
      DecimalPlain(index.value);
      PlainWord(Decimal(index.value));
    }
  }

  lemma InstanceNoSpace(op: ObjectProperty, property: string)
    requires NoSpace(property)
    ensures NoSpace(InstanceWord(op, property))
  {
    DecimalPlain(op.objectInstance);
    PlainWord(Decimal(op.objectInstance));
    IndexNoSpace(op.arrayIndex);
    hide Decimal;
    hide IndexText;
  }

  lemma Kinds()
    ensures Plain("object-type") && Plain("property") && Plain("DNET") && Plain("DADR")
    ensures Plain("service") && Plain("reason") && Plain("type")
  {
  }

  lemma NumberNoBracket(kind: string, n: nat)
    requires Plain(kind)
    ensures '[' !in NumberWord(kind, n)
  {
    PlainWord(kind);
    DecimalPlain(n);
    PlainWord(Decimal(n));
  }

  /** The words of an object and property are read as what they were written for. */
  lemma ItemRead(names: Names, op: ObjectProperty)
    requires names.Valid()
    ensures var ws := ItemWords(Scan(names.objectTypes, op.objectType), Scan(names.properties, op.propertyId), op);
            && |ws| == 2 && AllWords(ws) && !IsRoute(ws[0])
            && SaysItem(names, op, ReadItem(ws[0], ws[1]))
  {
    var typeName, propertyName := Scan(names.objectTypes, op.objectType), Scan(names.properties, op.propertyId);
    ScanRow(names.objectTypes, op.objectType);
    ScanRow(names.properties, op.propertyId);
    ScanSize(names.objectTypes, op.objectType, 22);
    ScanSize(names.properties, op.propertyId, 35);
    assert HasRow(names.objectTypes, op.objectType) == typeName.Some?;
    assert HasRow(names.properties, op.propertyId) == propertyName.Some?;
    hide Scan;
    hide HasRow;
    hide ReadWord;
    hide IsRoute;
    hide ReadItem;
    hide InstanceWord;
    hide NumberWord;
    hide Plain;
    hide NoSpace;
    if typeName.Some? && propertyName.Some? {
      NameRead(typeName.value);
      NameRead(propertyName.value);
      PlainWord(propertyName.value);
      InstanceRead(typeName.value, op, propertyName.value);
      InstanceNoSpace(op, propertyName.value);
    } else {
      var typeWord, property := NumberWord("object-type", op.objectType), NumberWord("property", op.propertyId);
      Kinds();
      NumberRead("object-type", op.objectType);
      NumberRead("property", op.propertyId);
      NotRoute(op.objectType);
      NumberNoBracket("property", op.propertyId);
      InstanceRead(typeWord, op, property);
      InstanceNoSpace(op, property);
    }
  }

  lemma NotRoute(n: nat)
    ensures !IsRoute(NumberWord("object-type", n))
  {
    Kinds();
    NumberRead("object-type", n);
  }

  lemma RouteRead(n: Npdu)
    ensures var ws := RouteWordList(n);
            AllWords(ws) && SaysRoute(n, ReadRoute(ws)) && (ws != [] ==> IsRoute(ws[0]))
  {
    Kinds();
    NumberRead("DNET", n.dnet);
    DecimalRoundTrip(n.dnet);
    HexPlain(n.dadr);
    PlainWord(Hex(n.dadr));
    PlainWord("DADR");
    HexRoundTrip(n.dadr);
    CutAt("DADR", '=', Hex(n.dadr));
    hide Decimal;
    hide DecimalValue;
    hide Hex;
    hide HexDecode;
    hide Before;
    hide After;
    hide Plain;
    assert n.HasDest() && n.dadr != [] ==> RouteWordList(n)[1] == "DADR" + ("=" + Hex(n.dadr));
  }

  // ---- Reading lines ----------------------------------------------------------------------------------------------

  /** A caption is one word, ends in no colon of its own and is not that of a BVLC frame. */
  predicate IsCaption(caption: string) {
    NoSpace(caption) && ':' !in caption && caption != "BVLC"
  }

  lemma RequestCaptions()
    ensures IsCaption("ConfirmedRequest") && IsCaption("Unconfirmed") && IsCaption("Network-Layer-Message")
  {
  }

  lemma AckCaptions()
    ensures IsCaption("SimpleACK") && IsCaption("ComplexACK") && IsCaption("SegmentACK")
  {
  }

  lemma FailureCaptions()
    ensures IsCaption("Error") && IsCaption("Reject") && IsCaption("Abort") && IsCaption("?")
  {
  }

  /** The captions of the nine kinds of line, by PDU type. */
  function Caption(a: Apdu): string {
    match a.pduType
    case 0 => "ConfirmedRequest" case 1 => "Unconfirmed" case 2 => "SimpleACK" case 3 => "ComplexACK"
    case 4 => "SegmentACK" case 5 => "Error" case 6 => "Reject" case 7 => "Abort" case _ => "?"
  }

  lemma CaptionRead(a: Apdu)
    ensures IsCaption(Caption(a))
    ensures SubjectOf(Caption(a)) == if a.pduType < 8 then Pdu(a.pduType) else Unknown
  {
    RequestCaptions();
    AckCaptions();
    FailureCaptions();
    hide IsCaption;
  }

  function HeadWords(names: Names, a: Apdu): seq<string> {
    match a.pduType
    case 1 => CodeWords(Caption(a), "service", a.serviceChoice, NameOf(names.unconfirmed, a.serviceChoice))
    case 4 => [Caption(a)]
    case 6 => CodeWords(Caption(a), "reason", a.reason, NameOf(names.reject, a.reason))
    case 7 => CodeWords(Caption(a), "reason", a.reason, NameOf(names.abort, a.reason))
    case _ =>
      if a.pduType > 7 then [Caption(a)]
      else CodeWords(Caption(a), "service", a.serviceChoice, NameOf(names.confirmed, a.serviceChoice))
  }

  lemma HeadJoined(names: Names, a: Apdu)
    ensures HeadWords(names, a) != [] && ApduText(names, a) == Join(HeadWords(names, a))
  {
    LabelledWords(Caption(a), "service", a.serviceChoice, NameOf(names.confirmed, a.serviceChoice));
    LabelledWords(Caption(a), "service", a.serviceChoice, NameOf(names.unconfirmed, a.serviceChoice));
    LabelledWords(Caption(a), "reason", a.reason, NameOf(names.reject, a.reason));
    LabelledWords(Caption(a), "reason", a.reason, NameOf(names.abort, a.reason));
    hide Labelled;
    hide NameOf;
  }

  /** A caption with a code's word, in front of any other words. */
  lemma CodedRead(caption: string, word: string, rest: seq<string>)
    requires IsCaption(caption) && NoSpace(word)
    ensures AllWords([caption + ":", word])
    ensures ReadWords([caption + ":", word] + rest) == ReadRest(SubjectOf(caption), Some(ReadWord(word)), rest)
  {
    hide ReadRest;
    hide SubjectOf;
    hide ReadWord;
    CutAt(caption, ':', "");
    assert ":" + "" == ":";
    ColonEnds(caption);
    assert ([caption + ":", word] + rest)[2..] == rest;
  }

  /** A caption with or without a code, in front of any other words. */
  lemma CodeRead(caption: string, kind: string, list: seq<string>, code: Option<byte>, name: Option<string>,
                 rest: seq<string>) returns (w: Option<Word>)
    requires IsCaption(caption) && Plain(kind) && (name.Some? ==> Plain(name.value))
    requires code.Some? ==> Entry(list, code.value, name)
    ensures AllWords(CodeWords(caption, kind, code, name))
    ensures ReadWords(CodeWords(caption, kind, code, name) + rest) == ReadRest(SubjectOf(caption), w, rest)
    ensures SaysCode(list, kind, code, w)
  {
    hide Plain;
    hide ReadRest;
    hide SubjectOf;
    hide ReadWord;
    hide NumberWord;
    var ws := CodeWords(caption, kind, code, name);
    if code.None? {
      w := None;
      NoCut(caption, ':');
      assert (ws + rest)[1..] == rest;
    } else {
      w := Some(ReadWord(ws[1]));
      NumberRead(kind, code.value);
      if name.Some? {
        NameRead(name.value);
      }
      CodedRead(caption, ws[1], rest);
      assert ws == [caption + ":", ws[1]];
    }
  }

  lemma ColonEnds(caption: string)
    requires IsCaption(caption)
    ensures NoSpace(caption + ":") && caption + ":" != "BVLC"
  {
    assert (caption + ":")[|caption|] == ':';
  }

  lemma NameEntry(list: seq<string>, code: Option<byte>, n: nat)
    requires Bounded(list, n)
    ensures code.Some? ==> Entry(list, code.value, NameOf(list, code))
    ensures NameOf(list, code).Some? ==> Plain(NameOf(list, code).value)
  {
  }

  lemma HeadRead(names: Names, a: Apdu, rest: seq<string>) returns (w: Option<Word>)
    requires names.Valid() && a.pduType < 8
    ensures AllWords(HeadWords(names, a))
    ensures ReadWords(HeadWords(names, a) + rest) == ReadRest(Pdu(a.pduType), w, rest)
    ensures SaysPduCode(names, a, w)
  {
    hide ReadRest;
    hide ReadWords;
    hide Entry;
    hide NameOf;
    hide CodeWords;
    hide Caption;
    hide Plain;
    CaptionRead(a);
    Kinds();
    match a.pduType {
      case 1 =>
        NameEntry(names.unconfirmed, a.serviceChoice, 34);
        w := CodeRead(Caption(a), "service", names.unconfirmed, a.serviceChoice,
                      NameOf(names.unconfirmed, a.serviceChoice), rest);
      case 4 =>
        w := CodeRead(Caption(a), "service", [], None, None, rest);
        NoCode(Caption(a));
      case 6 =>
        NameEntry(names.reject, a.reason, 27);
        w := CodeRead(Caption(a), "reason", names.reject, a.reason, NameOf(names.reject, a.reason), rest);
      case 7 =>
        NameEntry(names.abort, a.reason, 33);
        w := CodeRead(Caption(a), "reason", names.abort, a.reason, NameOf(names.abort, a.reason), rest);
      case _ =>
        NameEntry(names.confirmed, a.serviceChoice, 32);
        w := CodeRead(Caption(a), "service", names.confirmed, a.serviceChoice,
                      NameOf(names.confirmed, a.serviceChoice), rest);
    }
  }

  lemma NoCode(caption: string)
    ensures CodeWords(caption, "service", None, None) == [caption]
  {
  }

  /** The words for an object and property, if the PDU has one. */
  function ReferenceWords(names: Names, a: Apdu): seq<string> {
    if a.reference.None? then []
    else
      var op := a.reference.value;
      ItemWords(Scan(names.objectTypes, op.objectType), Scan(names.properties, op.propertyId), op)
  }

  function Tail(ws: seq<string>): string {
    if ws == [] then "" else " " + Join(ws)
  }

  lemma JoinTail(a: seq<string>, b: seq<string>)
    requires a != []
    ensures Join(a + b) == Join(a) + Tail(b)
  {
    if b == [] {
      assert a + b == a;
    } else {
      JoinConcat(a, b);
    }
  }

  lemma BodyJoined(names: Names, a: Apdu)
    ensures HeadWords(names, a) != []
    ensures BodyText(names, a) == Join(HeadWords(names, a) + ReferenceWords(names, a))
  {
    hide HeadWords;
    hide ApduText;
    hide ReferenceText;
    hide Scan;
    HeadJoined(names, a);
    JoinTail(HeadWords(names, a), ReferenceWords(names, a));
    if a.reference.Some? {
      var op := a.reference.value;
      ItemText(Scan(names.objectTypes, op.objectType), Scan(names.properties, op.propertyId), op);
    }
    hide Join;
    hide ItemWords;
  }

  lemma RestRead(subject: Subject, w: Option<Word>, item: seq<string>, route: seq<string>)
    requires item == [] || (|item| == 2 && !IsRoute(item[0]))
    requires route != [] ==> IsRoute(route[0])
    ensures ReadRest(subject, w, item + route)
            == Line(subject, w, if item == [] then None else Some(ReadItem(item[0], item[1])), ReadRoute(route))
  {
    hide ReadRoute;
    hide ReadItem;
    hide IsRoute;
    NoRoute();
    var ws := item + route;
    if item == [] {
      assert ws == route;
    } else {
      assert ws[2..] == route;
    }
  }

  lemma NoRoute()
    ensures ReadRoute([]) == None
  {
  }

  lemma PduRead(names: Names, n: Npdu)
    requires names.Valid() && n.payload.Application? && WellRangedApdu(n.payload.apdu)
    ensures var a := n.payload.apdu;
            var line := ReadLine(BodyText(names, a) + RouteWords(n));
            && SaysRoute(n, line.route)
            && if a.pduType < 8 then SaysApdu(names, a, line)
               else line.subject == Unknown && line.code == None && line.item == None
  {
    hide HeadWords;
    hide ReferenceWords;
    hide RouteWordList;
    hide BodyText;
    hide RouteWords;
    hide Join;
    hide Words;
    hide ReadWords;
    hide ReadRest;
    hide ReadRoute;
    hide SaysRoute;
    hide SaysPduCode;
    hide SaysItem;
    hide ReadItem;
    hide IsRoute;
    hide AllWords;
    var a := n.payload.apdu;
    var head, item, route := HeadWords(names, a), ReferenceWords(names, a), RouteWordList(n);
    BodyJoined(names, a);
    RouteJoined(n);
    RouteRead(n);
    RouteListEmpty(n);
    JoinTail(head + item, route);
    ReferenceWordsRead(names, a);
    var w: Option<Word>;
    if a.pduType < 8 {
      w := HeadRead(names, a, item + route);
    } else {
      w := UnassignedRead(names, a, item + route);
    }
    AllWordsConcat(head, item);
    AllWordsConcat(head + item, route);
    WordsOfJoin(head + item + route);
    assert head + item + route == head + (item + route);
    RestRead(if a.pduType < 8 then Pdu(a.pduType) else Unknown, w, item, route);
  }

  lemma RouteListEmpty(n: Npdu)
    ensures RouteWordList(n) == [] <==> !n.HasDest()
  {
  }

  lemma AllWordsConcat(a: seq<string>, b: seq<string>)
    requires AllWords(a) && AllWords(b)
    ensures AllWords(a + b)
  {
  }

  lemma ReferenceWordsRead(names: Names, a: Apdu)
    requires names.Valid()
    ensures var ws := ReferenceWords(names, a);
            && AllWords(ws) && (ws == [] <==> a.reference.None?)
            && (ws != [] ==>
                  |ws| == 2 && !IsRoute(ws[0]) && SaysItem(names, a.reference.value, ReadItem(ws[0], ws[1])))
  {
    hide SaysItem;
    hide ReadItem;
    hide IsRoute;
    if a.reference.Some? {
      ItemRead(names, a.reference.value);
    }
    hide ItemWords;
  }

  lemma UnassignedRead(names: Names, a: Apdu, rest: seq<string>) returns (w: Option<Word>)
    requires a.pduType >= 8
    ensures w == None && AllWords(HeadWords(names, a))
    ensures ReadWords(HeadWords(names, a) + rest) == ReadRest(Unknown, w, rest)
  {
    hide ReadRest;
    hide ReadWords;
    CaptionRead(a);
    Kinds();
    NoCode(Caption(a));
    w := CodeRead(Caption(a), "service", [], None, None, rest);
  }

  lemma MessageRead(names: Names, n: Npdu)
    requires names.Valid()
    ensures var line := ReadLine(CAPTION + (MessageWord(names, n.MessageType()) + RouteWords(n)));
            SaysMessage(names, n.MessageType(), line) && SaysRoute(n, line.route)
  {
    hide RouteWordList;
    hide RouteWords;
    hide Words;
    hide ReadWords;
    hide ReadRest;
    hide ReadRoute;
    hide SaysRoute;
    hide IsRoute;
    hide AllWords;
    hide Decimal;
    var route := RouteWordList(n);
    var ws := ["Network-Layer-Message:", MessageWord(names, n.MessageType())];
    RouteJoined(n);
    RouteRead(n);
    RouteListEmpty(n);
    JoinTwo(ws[0], ws[1]);
    JoinTail(ws, route);
    hide Join;
    assert CAPTION == ws[0] + " ";
    Associate(ws[0] + " ", ws[1], RouteWords(n));
    Associate(ws[0], " ", ws[1]);
    MessageWordRead(names, n.MessageType());
    MessageWordsRead(names, n.MessageType(), route);
    AllWordsConcat(ws, route);
    WordsOfJoin(ws + route);
    var w := ReadWord(ws[1]);
    RestRead(NetworkLayer, Some(w), [], route);
    assert [] + route == route;
  }

  lemma MessageWordRead(names: Names, t: byte)
    requires names.Valid()
    ensures NoSpace(MessageWord(names, t))
    ensures ReadWord(MessageWord(names, t))
            == if t in names.network then Name(names.network[t]) else Numbered("type", Some(t))
  {
    hide ReadWord;
    hide Plain;
    hide Decimal;
    Kinds();
    NumberRead("type", t);
    assert "type" + "=" == "type=";
    Associate("type", "=", Decimal(t));
    if t in names.network {
      NameRead(names.network[t]);
    }
  }

  lemma MessageWordsRead(names: Names, t: byte, rest: seq<string>)
    requires names.Valid()
    ensures var ws := ["Network-Layer-Message:", MessageWord(names, t)];
            && AllWords(ws)
            && ReadWords(ws + rest) == ReadRest(NetworkLayer, Some(ReadWord(ws[1])), rest)
  {
    hide ReadRest;
    hide ReadWord;
    hide ReadWords;
    hide MessageWord;
    RequestCaptions();
    MessageWordRead(names, t);
    assert "Network-Layer-Message" + ":" == "Network-Layer-Message:";
    CodedRead("Network-Layer-Message", MessageWord(names, t), rest);
  }

  lemma BvlcRead(code: byte)
    ensures ReadLine("BVLC function=0x" + HexOctet(code)) == Line(BvlcFunction(code), None, None, None)
  {
    var word := "function" + ("=" + ("0x" + HexOctet(code)));
    BvlcWord(code);
    BvlcOctet(code);
    BvlcText(HexOctet(code));
    WordsFirst("BVLC", word);
    WordsFirst(word, "");
    hide HexOctet;
    hide OctetValue;
    hide Words;
    hide After;
    hide ReadRest;
  }

  lemma BvlcText(digits: string)
    ensures "BVLC function=0x" + digits == "BVLC" + (" " + ("function" + ("=" + ("0x" + digits))))
  {
  }

  lemma BvlcOctet(code: byte)
    ensures var octet := "0x" + HexOctet(code);
            && After("function" + ("=" + octet), '=') == Some(octet)
            && |octet| == 4 && octet[..2] == "0x" && OctetValue(octet[2], octet[3]) == Some(code)
  {
    OctetRoundTrip(code);
    BvlcWord(code);
    hide OctetValue;
    hide HexOctet;
    var octet := "0x" + HexOctet(code);
    CutAt("function", '=', octet);
    assert octet[2] == HexOctet(code)[0] && octet[3] == HexOctet(code)[1];
  }

  lemma BvlcWord(code: byte)
    ensures NoSpace("BVLC") && NoSpace("function" + ("=" + ("0x" + HexOctet(code))))
    ensures '=' !in "function"
  {
  }

  lemma UnknownRead()
    ensures ReadLine("?") == Line(Unknown, None, None, None)
  {
    assert "?"[1..] == "";
    WordsFirst("?", "");
    hide Words;
  }

  /**
    Main result: read word by word, the summary of any frame says what the decoder reports: the kind of
    PDU or message; its service, reason or type by the name its own table has, or by number; object
    and property by name or number, instance and index; network number and station address.
   */
  lemma SummaryReadBack(names: Names, s: seq<byte>)
    requires names.Valid()
    ensures Says(names, Decode(s), ReadLine(IdealText(names, Decode(s))))
  {
    hide Decode;
    hide IdealText;
    hide ReadLine;
    hide RouteWords;
    hide BodyText;
    hide MessageWord;
    hide SaysRoute;
    hide SaysMessage;
    hide SaysApdu;
    var f := Decode(s);
    DecodedWellRanged(s);
    UnknownRead();
    match f {
      case NotBacnetIp => ShortTexts(names, 0, f);
      case Bvlc(code, None) =>
        ShortTexts(names, code, f);
        BvlcRead(code);
      case Bvlc(code, Some(n)) =>
        if n.IsNetworkMessage() {
          NetworkWords(names, code, n);
          MessageRead(names, n);
        } else if n.payload.Application? {
          PduWords(names, code, n);
          PduRead(names, n);
        } else {
          NoPayloadText(names, code, n);
        }
    }
  }

  lemma NoPayloadText(names: Names, code: byte, n: Npdu)
    requires !n.IsNetworkMessage() && !n.payload.Application?
    ensures IdealText(names, Bvlc(code, Some(n))) == "?"
  {
  }
}
