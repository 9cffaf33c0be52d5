/**
 * The SyncML encoder and decoder at the level of XML trees. A node's text "" stands for no text:
 * the two look the same in an XML document. Tags are local names of the SyncML namespace.
 */
module SyncML {
  import opened Prelude

  /** The element names the code uses, and any other. */
  datatype Tag =
    | Root | SyncHdr | SyncBody | Final
    | VerDTD | VerProto | SessionID | MsgID | Target | Source | LocURI
    | CmdID | MsgRef | CmdRef | Cmd | TargetRef | SourceRef | Data | Item | Meta | Type | Format
    | Alert | Status | Replace | Add | Exec | Get | Results
    | Other(name: string)

  datatype Node = Node(tag: Tag, text: string, children: seq<Node>)

  function Leaf(tag: Tag, text: string): Node {
    Node(tag, text, [])
  }

  // ----- Messages -----

  datatype SyncHdr = SyncHdr(sessionId: string, msgId: string, targetUri: string, sourceUri: string)

  datatype SyncItem = SyncItem(
    target: Option<string>,
    source: Option<string>,
    data: Option<string>,
    metaType: Option<string>,
    metaFormat: Option<string>)

  datatype SyncCmd = SyncCmd(
    cmd: Tag,
    cmdId: string,
    items: seq<SyncItem>,
    msgRef: Option<string>,
    cmdRef: Option<string>,
    refCmd: Option<string>,
    targetRef: Option<string>,
    sourceRef: Option<string>,
    data: Option<string>)

  datatype SyncMsg = SyncMsg(header: SyncHdr, commands: seq<SyncCmd>)

  /** A command dictionary given to build(); None stands for a missing key. */
  datatype OutCmd = OutCmd(
    cmd: Tag,
    msgRef: Option<string>,
    cmdRef: Option<string>,
    refCmd: Option<string>,
    targetRef: Option<string>,
    sourceRef: Option<string>,
    data: Option<string>,
    target: Option<string>,
    metaFormat: Option<string>,
    metaType: Option<string>)

  datatype ParseError = MissingSyncHdr

  // ----- ElementTree lookups -----

  /** Element.find: the first child with the tag. */
  function First(children: seq<Node>, tag: Tag): Option<Node> {
    if children == [] then None
    else if children[0].tag == tag then Some(children[0])
    else First(children[1..], tag)
  }

  lemma {:induction false} FirstAt(children: seq<Node>, tag: Tag, i: nat)
    requires i < |children| && children[i].tag == tag
    requires forall j :: 0 <= j < i ==> children[j].tag != tag
    ensures First(children, tag) == Some(children[i])
  {
    if i > 0 {
      FirstAt(children[1..], tag, i - 1);
    }
  }

  lemma {:induction false} FirstNone(children: seq<Node>, tag: Tag)
    requires forall c :: c in children ==> c.tag != tag
    ensures First(children, tag) == None
  {
    if children != [] {
      FirstNone(children[1..], tag);
    }
  }

  /** _find_text. */
  function FindText(el: Node, tag: Tag): Option<string> {
    match First(el.children, tag)
    case None => None
    case Some(c) => Shown(c.text)
  }

  function Shown(text: string): Option<string> {
    if text == "" then None else Some(Strip(text))
  }

  /** Element.text, None when there is none. */
  function TextOf(el: Option<Node>): Option<string> {
    match el
    case None => None
    case Some(c) => Kept(c.text)
  }

  function Kept(text: string): Option<string> {
    if text == "" then None else Some(text)
  }

  /** Element.findtext on an optional element: "" for a child without text. */
  function LocUri(el: Option<Node>): Option<string> {
    match el
    case None => None
    case Some(e) =>
      match First(e.children, Tag.LocURI)
      case None => None
      case Some(c) => Some(c.text)
  }

  /** Element.findall(".//tag"): all descendants with the tag, in document order. */
  function Descendants(children: seq<Node>, tag: Tag): seq<Node> {
    if children == [] then []
    else
      (if children[0].tag == tag then [children[0]] else [])
      + Descendants(children[0].children, tag) + Descendants(children[1..], tag)
  }

  // ----- parse -----

  function ParseHeader(hdr: Node): SyncHdr {
    var uris := Descendants(hdr.children, Tag.LocURI);
    SyncHdr.SyncHdr(
      OrZero(FindText(hdr, Tag.SessionID)),
      OrZero(FindText(hdr, Tag.MsgID)),
      if |uris| > 0 then Strip(uris[0].text) else "",
      if |uris| > 1 then Strip(uris[1].text) else "")
  }

  /** `text or "0"`. */
  function OrZero(text: Option<string>): string {
    if text.GetOr("") == "" then "0" else text.value
  }

  function ParseItem(el: Node): SyncItem {
    var meta := First(el.children, Tag.Meta);
    SyncItem(
      LocUri(First(el.children, Tag.Target)),
      LocUri(First(el.children, Tag.Source)),
      TextOf(First(el.children, Tag.Data)),
      if meta.Some? then TextOf(First(meta.value.children, Tag.Type)) else None,
      if meta.Some? then TextOf(First(meta.value.children, Tag.Format)) else None)
  }

  function ParseItems(children: seq<Node>): seq<SyncItem> {
    if children == [] then []
    else
      var n := |children| - 1;
      ParseItems(children[..n]) + if children[n].tag == Tag.Item then [ParseItem(children[n])] else []
  }

  function ParseCommand(el: Node): SyncCmd {
    var id := OrZero(FindText(el, Tag.CmdID));
    if el.tag == Tag.Alert then
      SyncCmd(Tag.Alert, id, [], None, None, None, None, None, FindText(el, Tag.Data))
    else if el.tag == Tag.Status then
      SyncCmd(Tag.Status, id, [], FindText(el, Tag.MsgRef), FindText(el, Tag.CmdRef), FindText(el, Tag.Cmd),
        FindText(el, Tag.TargetRef), FindText(el, Tag.SourceRef), FindText(el, Tag.Data))
    else
      SyncCmd(el.tag, id, ParseItems(el.children), None, None, None, None, None, None)
  }

  function ParseCommands(els: seq<Node>): seq<SyncCmd> {
    if els == [] then []
    else
      var n := |els| - 1;
      ParseCommands(els[..n]) + if els[n].tag == Tag.Final then [] else [ParseCommand(els[n])]
  }

  function ParseTree(root: Node): Result<SyncMsg, ParseError> {
    match First(root.children, Tag.SyncHdr)
    case None => Err(MissingSyncHdr)
    case Some(hdr) =>
      match First(root.children, Tag.SyncBody)
      case None => Ok(SyncMsg(ParseHeader(hdr), []))
      case Some(body) => Ok(SyncMsg(ParseHeader(hdr), ParseCommands(body.children)))
  }

  /** What parse()'s loop appends for one element other than Final. */
  method ParseElement(el: Node) returns (cmd: SyncCmd)
    ensures cmd == ParseCommand(el)
  {
    var cmdId := OrZero(FindText(el, Tag.CmdID));
    if el.tag == Tag.Alert {
      cmd := SyncCmd(Tag.Alert, cmdId, [], None, None, None, None, None, FindText(el, Tag.Data));
    } else if el.tag == Tag.Status {
      cmd := SyncCmd(Tag.Status, cmdId, [], FindText(el, Tag.MsgRef), FindText(el, Tag.CmdRef),
        FindText(el, Tag.Cmd), FindText(el, Tag.TargetRef), FindText(el, Tag.SourceRef), FindText(el, Tag.Data));
    } else {
      var items: seq<SyncItem> := [];
      for k := 0 to |el.children|
        invariant items == ParseItems(el.children[..k])
      {
        assert el.children[..k + 1][..k] == el.children[..k];
        if el.children[k].tag == Tag.Item {
          items := items + [ParseItem(el.children[k])];
        }
      }
      assert el.children[..|el.children|] == el.children;
      cmd := SyncCmd(el.tag, cmdId, items, None, None, None, None, None, None);
    }
  }

  method Parse(root: Node) returns (r: Result<SyncMsg, ParseError>)
    ensures r == ParseTree(root)
  {
    var hdr := First(root.children, Tag.SyncHdr);
    if hdr.None? {
      return Err(MissingSyncHdr);
    }
    var header := ParseHeader(hdr.value);
    var commands: seq<SyncCmd> := [];
    var body := First(root.children, Tag.SyncBody);
    if body.None? {
      return Ok(SyncMsg(header, commands));
    }
    var els := body.value.children;
    for i := 0 to |els|
      invariant commands == ParseCommands(els[..i])
    {
      assert els[..i + 1][..i] == els[..i];
      if els[i].tag == Tag.Final {
        continue;
      }
      var cmd := ParseElement(els[i]);
      commands := commands + [cmd];
    }
    assert els[..|els|] == els;
    r := Ok(SyncMsg(header, commands));
  }

  // ----- build -----

  function Header(sessionId: string, msgId: string, serverUri: string, deviceUri: string): Node {
    Node(Tag.SyncHdr, "", [
      Leaf(Tag.VerDTD, "1.2"), Leaf(Tag.VerProto, "DM/1.2"), Leaf(Tag.SessionID, sessionId), Leaf(Tag.MsgID, msgId),
      Node(Tag.Target, "", [Leaf(Tag.LocURI, deviceUri)]), Node(Tag.Source, "", [Leaf(Tag.LocURI, serverUri)])])
  }

  /** A child that is only written for a truthy value. */
  function Given(tag: Tag, text: Option<string>): seq<Node> {
    if text.GetOr("") == "" then [] else [Leaf(tag, text.value)]
  }

  function TargetNode(uri: string): Node {
    Node(Tag.Target, "", [Leaf(Tag.LocURI, uri)])
  }

  function Optional(c: OutCmd): seq<Node> {
    if c.target.GetOr("") == "" then [] else [TargetNode(c.target.value)]
  }

  function DataChild(data: Option<string>): seq<Node> {
    if data.Some? then [Leaf(Tag.Data, data.value)] else []
  }

  function MetaNodes(c: OutCmd): seq<Node> {
    var kids := Given(Tag.Format, c.metaFormat) + Given(Tag.Type, c.metaType);
    if kids == [] then [] else [Node(Tag.Meta, "", kids)]
  }

  /** The children a command gets after its CmdID. */
  function Body(c: OutCmd): seq<Node> {
    if c.cmd == Tag.Status then
      [Leaf(Tag.MsgRef, c.msgRef.GetOr("1")), Leaf(Tag.CmdRef, c.cmdRef.GetOr("0")),
       Leaf(Tag.Cmd, c.refCmd.GetOr("SyncHdr"))]
      + Given(Tag.TargetRef, c.targetRef) + Given(Tag.SourceRef, c.sourceRef) + [Leaf(Tag.Data, c.data.GetOr("200"))]
    else if c.cmd in {Tag.Replace, Tag.Add} then
      [Node(Tag.Item, "", Optional(c) + MetaNodes(c) + DataChild(c.data))]
    else if c.cmd == Tag.Exec then
      [Node(Tag.Item, "", [TargetNode(c.target.GetOr(""))] + DataChild(c.data))]
    else if c.cmd == Tag.Get then
      [Node(Tag.Item, "", [TargetNode(c.target.GetOr(""))])]
    else if c.cmd == Tag.Alert then
      [Leaf(Tag.Data, c.data.GetOr("1200"))]
    else []
  }

  function Element(idx: nat, c: OutCmd): Node {
    Node(c.cmd, "", [Leaf(Tag.CmdID, Decimal(idx))] + Body(c))
  }

  function Elements(commands: seq<OutCmd>): seq<Node> {
    seq(|commands|, i requires 0 <= i < |commands| => Element(i + 1, commands[i]))
  }

  function MessageTree(
      sessionId: string, msgId: string, serverUri: string, deviceUri: string, commands: seq<OutCmd>): Node
  {
    Node(Tag.Root, "", [
      Header(sessionId, msgId, serverUri, deviceUri),
      Node(Tag.SyncBody, "", Elements(commands) + [Leaf(Tag.Final, "")])])
  }

  /** The frame every message has: the two versions in front of the header, Final behind the commands. */
  predicate Framed(root: Node, count: nat) {
    && root.tag == Tag.Root && |root.children| == 2
    && root.children[0].tag == Tag.SyncHdr && |root.children[0].children| == 6
    && root.children[0].children[..2] == [Leaf(Tag.VerDTD, "1.2"), Leaf(Tag.VerProto, "DM/1.2")]
    && root.children[1].tag == Tag.SyncBody && |root.children[1].children| == count + 1
    && root.children[1].children[count] == Leaf(Tag.Final, "")
  }

  lemma MessageIsFramed(
      sessionId: string, msgId: string, serverUri: string, deviceUri: string, commands: seq<OutCmd>)
    ensures Framed(MessageTree(sessionId, msgId, serverUri, deviceUri, commands), |commands|)
  {
  }

  method BuildItem(c: OutCmd) returns (item: Node)
    requires c.cmd in {Tag.Replace, Tag.Add}
    ensures Body(c) == [item]
  {
    var kids: seq<Node> := [];
    if c.target.GetOr("") != "" {
      kids := kids + [TargetNode(c.target.value)];
    }
    if c.metaFormat.GetOr("") != "" || c.metaType.GetOr("") != "" {
      var meta: seq<Node> := [];
      if c.metaFormat.GetOr("") != "" {
        meta := meta + [Leaf(Tag.Format, c.metaFormat.value)];
      }
      if c.metaType.GetOr("") != "" {
        meta := meta + [Leaf(Tag.Type, c.metaType.value)];
      }
      assert meta == Given(Tag.Format, c.metaFormat) + Given(Tag.Type, c.metaType);
      kids := kids + [Node(Tag.Meta, "", meta)];
    }
    if c.data.Some? {
      kids := kids + [Leaf(Tag.Data, c.data.value)];
    }
    assert kids == Optional(c) + MetaNodes(c) + DataChild(c.data);
    item := Node(Tag.Item, "", kids);
  }

  method BuildStatus(c: OutCmd) returns (kids: seq<Node>)
    requires c.cmd == Tag.Status
    ensures kids == Body(c)
  {
    kids := [Leaf(Tag.MsgRef, c.msgRef.GetOr("1")), Leaf(Tag.CmdRef, c.cmdRef.GetOr("0"))];
    kids := kids + [Leaf(Tag.Cmd, c.refCmd.GetOr("SyncHdr"))];
    if c.targetRef.GetOr("") != "" {
      kids := kids + [Leaf(Tag.TargetRef, c.targetRef.value)];
    }
    if c.sourceRef.GetOr("") != "" {
      kids := kids + [Leaf(Tag.SourceRef, c.sourceRef.value)];
    }
    kids := kids + [Leaf(Tag.Data, c.data.GetOr("200"))];
  }

  /** What build()'s loop adds to the body for its idx-th command. */
  method BuildElement(idx: nat, c: OutCmd) returns (el: Node)
    ensures el == Element(idx, c)
  {
    var kids: seq<Node> := [];
    if c.cmd == Tag.Status {
      kids := BuildStatus(c);
    } else if c.cmd == Tag.Replace || c.cmd == Tag.Add {
      var item := BuildItem(c);
      kids := [item];
      assert kids == Body(c);
    } else if c.cmd == Tag.Exec {
      var item := [TargetNode(c.target.GetOr(""))];
      if c.data.Some? {
        item := item + [Leaf(Tag.Data, c.data.value)];
      }
      assert item == [TargetNode(c.target.GetOr(""))] + DataChild(c.data);
      kids := [Node(Tag.Item, "", item)];
    } else if c.cmd == Tag.Get {
      kids := [Node(Tag.Item, "", [TargetNode(c.target.GetOr(""))])];
    } else if c.cmd == Tag.Alert {
      kids := [Leaf(Tag.Data, c.data.GetOr("1200"))];
    }
    assert kids == Body(c);
    el := Node(c.cmd, "", [Leaf(Tag.CmdID, Decimal(idx))] + kids);
  }

  method Build(sessionId: string, msgId: string, serverUri: string, deviceUri: string, commands: seq<OutCmd>)
    returns (root: Node)
    ensures root == MessageTree(sessionId, msgId, serverUri, deviceUri, commands)
    ensures Framed(root, |commands|)
  {
    var hdr := [Leaf(Tag.VerDTD, "1.2"), Leaf(Tag.VerProto, "DM/1.2")];
    hdr := hdr + [Leaf(Tag.SessionID, sessionId), Leaf(Tag.MsgID, msgId)];
    hdr := hdr + [TargetNode(deviceUri), Node(Tag.Source, "", [Leaf(Tag.LocURI, serverUri)])];
    var body: seq<Node> := [];
    for i := 0 to |commands|
      invariant body == Elements(commands[..i])
    {
      var el := BuildElement(i + 1, commands[i]);
      body := body + [el];
      assert commands[..i + 1] == commands[..i] + [commands[i]];
    }
    assert commands[..|commands|] == commands;
    body := body + [Leaf(Tag.Final, "")];
    assert hdr == Header(sessionId, msgId, serverUri, deviceUri).children;
    MessageIsFramed(sessionId, msgId, serverUri, deviceUri, commands);
    root := Node(Tag.Root, "", [Node(Tag.SyncHdr, "", hdr), Node(Tag.SyncBody, "", body)]);
  }

  // ----- What a built message decodes to -----

  /** The command a reader gets back from build()'s idx-th command. */
  function Decoded(idx: nat, c: OutCmd): SyncCmd {
    var plain := SyncCmd(c.cmd, Decimal(idx), [], None, None, None, None, None, None);
    if c.cmd == Tag.Status then
      plain.(
        msgRef := Shown(c.msgRef.GetOr("1")), cmdRef := Shown(c.cmdRef.GetOr("0")),
        refCmd := Shown(c.refCmd.GetOr("SyncHdr")), targetRef := Shown(c.targetRef.GetOr("")),
        sourceRef := Shown(c.sourceRef.GetOr("")), data := Shown(c.data.GetOr("200")))
    else if c.cmd == Tag.Alert then plain.(data := Shown(c.data.GetOr("1200")))
    else if c.cmd in {Tag.Replace, Tag.Add} then
      plain.(items := [SyncItem(Kept(c.target.GetOr("")), None, Kept(c.data.GetOr("")),
        Kept(c.metaType.GetOr("")), Kept(c.metaFormat.GetOr("")))])
    else if c.cmd == Tag.Exec then
      plain.(items := [SyncItem(Some(c.target.GetOr("")), None, Kept(c.data.GetOr("")), None, None)])
    else if c.cmd == Tag.Get then
      plain.(items := [SyncItem(Some(c.target.GetOr("")), None, None, None, None)])
    else plain
  }

  function DecodedAll(commands: seq<OutCmd>): seq<SyncCmd> {
    if commands == [] then []
    else
      var n := |commands| - 1;
      DecodedAll(commands[..n]) + if commands[n].cmd == Tag.Final then [] else [Decoded(n + 1, commands[n])]
  }

  lemma HeaderReadsBack(sessionId: string, msgId: string, serverUri: string, deviceUri: string)
    ensures ParseHeader(Header(sessionId, msgId, serverUri, deviceUri)) ==
      SyncHdr.SyncHdr(OrZero(Shown(sessionId)), OrZero(Shown(msgId)), Strip(deviceUri), Strip(serverUri))
  {
    var hdr := Header(sessionId, msgId, serverUri, deviceUri);
    FindTextAt(hdr, Tag.SessionID, 2);
    FindTextAt(hdr, Tag.MsgID, 3);
    HeaderUris(sessionId, msgId, serverUri, deviceUri);
  }

  lemma HeaderUris(sessionId: string, msgId: string, serverUri: string, deviceUri: string)
    ensures Descendants(Header(sessionId, msgId, serverUri, deviceUri).children, Tag.LocURI) ==
      [Leaf(Tag.LocURI, deviceUri), Leaf(Tag.LocURI, serverUri)]
  {
    var tgt, src := Leaf(Tag.LocURI, deviceUri), Leaf(Tag.LocURI, serverUri);
    var leaves := [Leaf(Tag.VerDTD, "1.2"), Leaf(Tag.VerProto, "DM/1.2"),
                   Leaf(Tag.SessionID, sessionId), Leaf(Tag.MsgID, msgId)];
    SkipLeaves(leaves, [Node(Tag.Target, "", [tgt]), Node(Tag.Source, "", [src])]);
    TwoUris(tgt, src);
    assert Header(sessionId, msgId, serverUri, deviceUri).children ==
      leaves + [Node(Tag.Target, "", [tgt]), Node(Tag.Source, "", [src])];
  }

  lemma {:induction false} SkipLeaves(leaves: seq<Node>, rest: seq<Node>)
    requires forall n :: n in leaves ==> n.tag != Tag.LocURI && n.children == []
    ensures Descendants(leaves + rest, Tag.LocURI) == Descendants(rest, Tag.LocURI)
  {
    if leaves == [] {
      assert leaves + rest == rest;
    } else {
      SkipLeaves(leaves[1..], rest);
      assert (leaves + rest)[1..] == leaves[1..] + rest;
      assert leaves[0] in leaves && Descendants(leaves[0].children, Tag.LocURI) == [];
    }
  }

  lemma TwoUris(tgt: Node, src: Node)
    requires tgt.tag == src.tag == Tag.LocURI && tgt.children == src.children == []
    ensures Descendants([Node(Tag.Target, "", [tgt]), Node(Tag.Source, "", [src])], Tag.LocURI) == [tgt, src]
  {
    SingleDescendant(tgt);
    SingleDescendant(src);
    var uris := [Node(Tag.Target, "", [tgt]), Node(Tag.Source, "", [src])];
    assert uris[1..] == [uris[1]] && uris[1..][1..] == [];
    assert Descendants(uris[1..], Tag.LocURI) == [src];
  }

  lemma SingleDescendant(n: Node)
    requires n.tag == Tag.LocURI && n.children == []
    ensures Descendants([n], Tag.LocURI) == [n]
  {
  }

  lemma CmdIdReadsBack(idx: nat, c: OutCmd)
    ensures OrZero(FindText(Element(idx, c), Tag.CmdID)) == Decimal(idx)
  {
    FirstAt(Element(idx, c).children, Tag.CmdID, 0);
    DecimalTrimmed(idx);
  }

  lemma FindTextAt(el: Node, tag: Tag, i: nat)
    requires i < |el.children| && el.children[i].tag == tag
    requires forall j :: 0 <= j < i ==> el.children[j].tag != tag
    ensures FindText(el, tag) == Shown(el.children[i].text)
  {
    FirstAt(el.children, tag, i);
  }

  lemma FindTextNone(el: Node, tag: Tag)
    requires forall c :: c in el.children ==> c.tag != tag
    ensures FindText(el, tag) == None
  {
    FirstNone(el.children, tag);
  }

  lemma StatusRefsReadBack(el: Node, targetRef: Option<string>, sourceRef: Option<string>, front: seq<Node>, data: Node)
    requires el.children == front + Given(Tag.TargetRef, targetRef) + Given(Tag.SourceRef, sourceRef) + [data]
    requires data.tag == Tag.Data
    requires forall c :: c in front ==> c.tag !in {Tag.TargetRef, Tag.SourceRef, Tag.Data}
    ensures FindText(el, Tag.TargetRef) == Shown(targetRef.GetOr(""))
    ensures FindText(el, Tag.SourceRef) == Shown(sourceRef.GetOr(""))
    ensures FindText(el, Tag.Data) == Shown(data.text)
  {
    FindTextAt(el, Tag.Data, |el.children| - 1);
    if targetRef.GetOr("") != "" {
      FindTextAt(el, Tag.TargetRef, |front|);
    } else {
      FindTextNone(el, Tag.TargetRef);
    }
    if sourceRef.GetOr("") != "" {
      FindTextAt(el, Tag.SourceRef, |el.children| - 2);
    } else {
      FindTextNone(el, Tag.SourceRef);
    }
  }

  lemma HeadTexts(el: Node)
    requires |el.children| > 3 && el.children[0].tag == Tag.CmdID && el.children[1].tag == Tag.MsgRef
    requires el.children[2].tag == Tag.CmdRef && el.children[3].tag == Tag.Cmd
    ensures FindText(el, Tag.MsgRef) == Shown(el.children[1].text)
    ensures FindText(el, Tag.CmdRef) == Shown(el.children[2].text)
    ensures FindText(el, Tag.Cmd) == Shown(el.children[3].text)
  {
    FindTextAt(el, Tag.MsgRef, 1);
    FindTextAt(el, Tag.CmdRef, 2);
    FindTextAt(el, Tag.Cmd, 3);
  }

  lemma StatusHeadReadsBack(idx: nat, c: OutCmd)
    requires c.cmd == Tag.Status
    ensures var el := Element(idx, c);
      && FindText(el, Tag.MsgRef) == Shown(c.msgRef.GetOr("1"))
      && FindText(el, Tag.CmdRef) == Shown(c.cmdRef.GetOr("0"))
      && FindText(el, Tag.Cmd) == Shown(c.refCmd.GetOr("SyncHdr"))
  {
    HeadTexts(Element(idx, c));
  }

  lemma StatusTailReadsBack(idx: nat, c: OutCmd)
    requires c.cmd == Tag.Status
    ensures var el := Element(idx, c);
      && FindText(el, Tag.TargetRef) == Shown(c.targetRef.GetOr(""))
      && FindText(el, Tag.SourceRef) == Shown(c.sourceRef.GetOr(""))
      && FindText(el, Tag.Data) == Shown(c.data.GetOr("200"))
  {
    var el := Element(idx, c);
    var data := Leaf(Tag.Data, c.data.GetOr("200"));
    assert el.children
        == el.children[..4] + Given(Tag.TargetRef, c.targetRef) + Given(Tag.SourceRef, c.sourceRef) + [data];
    StatusRefsReadBack(el, c.targetRef, c.sourceRef, el.children[..4], data);
  }

  lemma StatusReadsBack(idx: nat, c: OutCmd)
    requires c.cmd == Tag.Status
    ensures ParseCommand(Element(idx, c)) == Decoded(idx, c)
  {
    CmdIdReadsBack(idx, c);
    StatusHeadReadsBack(idx, c);
    StatusTailReadsBack(idx, c);
  }

  lemma AlertReadsBack(idx: nat, c: OutCmd)
    requires c.cmd == Tag.Alert
    ensures ParseCommand(Element(idx, c)) == Decoded(idx, c)
  {
    CmdIdReadsBack(idx, c);
    FirstAt(Element(idx, c).children, Tag.Data, 1);
  }

  lemma OneItem(id: Node, item: Node)
    requires id.tag != Tag.Item && item.tag == Tag.Item
    ensures ParseItems([id, item]) == [ParseItem(item)]
    ensures ParseItems([id]) == []
  {
    assert [id, item][..1] == [id] && [id][..0] == [];
    assert ParseItems([id]) == ParseItems([]) + [];
    assert ParseItems([id, item]) == ParseItems([id]) + [ParseItem(item)];
  }

  lemma UriReadsBack(uri: string)
    ensures LocUri(Some(TargetNode(uri))) == Some(uri)
  {
    FirstAt(TargetNode(uri).children, Tag.LocURI, 0);
  }

  lemma ExecItemReadsBack(uri: string, data: Option<string>)
    ensures ParseItem(Node(Tag.Item, "", [TargetNode(uri)] + DataChild(data))) ==
      SyncItem(Some(uri), None, Kept(data.GetOr("")), None, None)
  {
    var kids := [TargetNode(uri)] + DataChild(data);
    FirstAt(kids, Tag.Target, 0);
    UriReadsBack(uri);
    FirstNone(kids, Tag.Source);
    FirstNone(kids, Tag.Meta);
    if data.Some? {
      FirstAt(kids, Tag.Data, 1);
    } else {
      FirstNone(kids, Tag.Data);
    }
  }

  lemma ItemCommandReadsBack(idx: nat, c: OutCmd, item: Node)
    requires Body(c) == [item] && item.tag == Tag.Item && c.cmd !in {Tag.Alert, Tag.Status}
    ensures ParseCommand(Element(idx, c))
         == SyncCmd(c.cmd, Decimal(idx), [ParseItem(item)], None, None, None, None, None, None)
  {
    CmdIdReadsBack(idx, c);
    OneItem(Leaf(Tag.CmdID, Decimal(idx)), item);
    assert Element(idx, c).children == [Leaf(Tag.CmdID, Decimal(idx)), item];
  }

  lemma ExecOrGetReadsBack(idx: nat, c: OutCmd)
    requires c.cmd in {Tag.Exec, Tag.Get}
    ensures ParseCommand(Element(idx, c)) == Decoded(idx, c)
  {
    var data := if c.cmd == Tag.Exec then c.data else None;
    assert [TargetNode(c.target.GetOr(""))] + DataChild(None) == [TargetNode(c.target.GetOr(""))];
    ItemCommandReadsBack(idx, c, Node(Tag.Item, "", [TargetNode(c.target.GetOr(""))] + DataChild(data)));
    ExecItemReadsBack(c.target.GetOr(""), data);
  }

  lemma MetaReadsBack(c: OutCmd)
    requires MetaNodes(c) != []
    ensures TextOf(First(MetaNodes(c)[0].children, Tag.Type)) == Kept(c.metaType.GetOr(""))
    ensures TextOf(First(MetaNodes(c)[0].children, Tag.Format)) == Kept(c.metaFormat.GetOr(""))
  {
    var kids := MetaNodes(c)[0].children;
    if c.metaFormat.GetOr("") != "" {
      FirstAt(kids, Tag.Format, 0);
    } else {
      FirstNone(kids, Tag.Format);
    }
    if c.metaType.GetOr("") != "" {
      FirstAt(kids, Tag.Type, |kids| - 1);
    } else {
      FirstNone(kids, Tag.Type);
    }
  }

  /** An item's optional children are found by their tags. */
  lemma OptionalParts(tgt: seq<Node>, meta: seq<Node>, data: seq<Node>)
    requires |tgt| <= 1 && (forall n :: n in tgt ==> n.tag == Tag.Target)
    requires |meta| <= 1 && (forall n :: n in meta ==> n.tag == Tag.Meta)
    requires |data| <= 1 && (forall n :: n in data ==> n.tag == Tag.Data)
    ensures var kids := tgt + meta + data;
      && First(kids, Tag.Target) == (if tgt == [] then None else Some(tgt[0]))
      && First(kids, Tag.Meta) == (if meta == [] then None else Some(meta[0]))
      && First(kids, Tag.Data) == (if data == [] then None else Some(data[0]))
      && First(kids, Tag.Source) == None
  {
    var kids := tgt + meta + data;
    FirstNone(kids, Tag.Source);
    if tgt == [] { FirstNone(kids, Tag.Target); } else { FirstAt(kids, Tag.Target, 0); }
    if meta == [] { FirstNone(kids, Tag.Meta); } else { FirstAt(kids, Tag.Meta, |tgt|); }
    if data == [] { FirstNone(kids, Tag.Data); } else { FirstAt(kids, Tag.Data, |tgt| + |meta|); }
  }

  lemma ReplaceItemReadsBack(c: OutCmd)
    ensures ParseItem(Node(Tag.Item, "", Optional(c) + MetaNodes(c) + DataChild(c.data))) ==
      SyncItem(Kept(c.target.GetOr("")), None, Kept(c.data.GetOr("")),
        Kept(c.metaType.GetOr("")), Kept(c.metaFormat.GetOr("")))
  {
    OptionalParts(Optional(c), MetaNodes(c), DataChild(c.data));
    if c.target.GetOr("") != "" {
      UriReadsBack(c.target.value);
    }
    if MetaNodes(c) != [] {
      MetaReadsBack(c);
    }
  }

  lemma ReplaceOrAddReadsBack(idx: nat, c: OutCmd)
    requires c.cmd in {Tag.Replace, Tag.Add}
    ensures ParseCommand(Element(idx, c)) == Decoded(idx, c)
  {
    ItemCommandReadsBack(idx, c, Body(c)[0]);
    ReplaceItemReadsBack(c);
  }

  lemma OtherReadsBack(idx: nat, c: OutCmd)
    requires !Known(c)
    ensures ParseCommand(Element(idx, c)) == Decoded(idx, c)
  {
    CmdIdReadsBack(idx, c);
    var id := Leaf(Tag.CmdID, Decimal(idx));
    assert Element(idx, c).children == [id];
    OneItem(id, Leaf(Tag.Item, ""));
  }

  /** Every command, whatever its texts, decodes to its Decoded form. */
  lemma CommandReadsBack(idx: nat, c: OutCmd)
    ensures ParseCommand(Element(idx, c)) == Decoded(idx, c)
  {
    if c.cmd == Tag.Status {
      StatusReadsBack(idx, c);
    } else if c.cmd == Tag.Alert {
      AlertReadsBack(idx, c);
    } else if c.cmd in {Tag.Exec, Tag.Get} {
      ExecOrGetReadsBack(idx, c);
    } else if c.cmd in {Tag.Replace, Tag.Add} {
      ReplaceOrAddReadsBack(idx, c);
    } else {
      OtherReadsBack(idx, c);
    }
  }

  lemma {:induction false} CommandsReadBack(commands: seq<OutCmd>)
    ensures ParseCommands(Elements(commands)) == DecodedAll(commands)
  {
    if commands != [] {
      var n := |commands| - 1;
      CommandsReadBack(commands[..n]);
      assert Elements(commands)[..n] == Elements(commands[..n]);
      CommandReadsBack(n + 1, commands[n]);
    }
  }

  lemma FinalIsSkipped(els: seq<Node>)
    ensures ParseCommands(els + [Leaf(Tag.Final, "")]) == ParseCommands(els)
  {
    var all := els + [Leaf(Tag.Final, "")];
    assert all[..|els|] == els;
  }

  /** parse after build, for all inputs. */
  lemma ParseUndoesBuild(sessionId: string, msgId: string, serverUri: string, deviceUri: string, commands: seq<OutCmd>)
    ensures ParseTree(MessageTree(sessionId, msgId, serverUri, deviceUri, commands)) ==
      Ok(SyncMsg(
        SyncHdr.SyncHdr(OrZero(Shown(sessionId)), OrZero(Shown(msgId)), Strip(deviceUri), Strip(serverUri)),
        DecodedAll(commands)))
  {
    var hdr := Header(sessionId, msgId, serverUri, deviceUri);
    var body := Node(Tag.SyncBody, "", Elements(commands) + [Leaf(Tag.Final, "")]);
    MessageParts(hdr, body);
    HeaderReadsBack(sessionId, msgId, serverUri, deviceUri);
    FinalIsSkipped(Elements(commands));
    CommandsReadBack(commands);
  }

  lemma MessageParts(hdr: Node, body: Node)
    requires hdr.tag == Tag.SyncHdr && body.tag == Tag.SyncBody
    ensures ParseTree(Node(Tag.Root, "", [hdr, body])) == Ok(SyncMsg(ParseHeader(hdr), ParseCommands(body.children)))
  {
    FirstAt([hdr, body], Tag.SyncHdr, 0);
    FirstAt([hdr, body], Tag.SyncBody, 1);
  }

  // ----- The same for texts that survive -----

  predicate Clean(text: string) {
    text != "" && Trimmed(text)
  }

  predicate CleanOrAbsent(text: Option<string>) {
    text.Some? ==> Clean(text.value)
  }

  predicate Known(c: OutCmd) {
    c.cmd in {Tag.Status, Tag.Replace, Tag.Add, Tag.Exec, Tag.Get, Tag.Alert}
  }

  /** Only the texts that _find_text strips need to be trimmed. */
  predicate Survives(c: OutCmd) {
    && Known(c)
    && (c.cmd == Tag.Status ==>
          && CleanOrAbsent(c.msgRef) && CleanOrAbsent(c.cmdRef) && CleanOrAbsent(c.refCmd) && CleanOrAbsent(c.targetRef)
          && CleanOrAbsent(c.sourceRef) && CleanOrAbsent(c.data))
    && (c.cmd == Tag.Alert ==> CleanOrAbsent(c.data))
    && (c.cmd in {Tag.Replace, Tag.Add} ==>
          c.target != Some("") && c.data != Some("") && c.metaType != Some("") && c.metaFormat != Some(""))
    && (c.cmd == Tag.Exec ==> c.data != Some(""))
  }

  /** The decoded command carries every field it was built from, absent ones with build's defaults. */
  ghost predicate Carries(d: SyncCmd, c: OutCmd) {
    && d.cmd == c.cmd
    && (c.cmd == Tag.Status ==>
          && d.items == [] && d.msgRef == Some(c.msgRef.GetOr("1")) && d.cmdRef == Some(c.cmdRef.GetOr("0"))
          && d.refCmd == Some(c.refCmd.GetOr("SyncHdr")) && d.targetRef == c.targetRef && d.sourceRef == c.sourceRef
          && d.data == Some(c.data.GetOr("200")))
    && (c.cmd == Tag.Alert ==> d.items == [] && d.data == Some(c.data.GetOr("1200")))
    && (c.cmd in {Tag.Replace, Tag.Add} ==> d.items == [SyncItem(c.target, None, c.data, c.metaType, c.metaFormat)])
    && (c.cmd == Tag.Exec ==> d.items == [SyncItem(Some(c.target.GetOr("")), None, c.data, None, None)])
    && (c.cmd == Tag.Get ==> d.items == [SyncItem(Some(c.target.GetOr("")), None, None, None, None)])
  }

  lemma ShownIff(text: string)
    ensures Shown(text) == Some(text) <==> Clean(text)
  {
    StripFixesTrimmed(text);
  }

  /** A command of a known verb survives the round trip exactly when its texts are clean. */
  lemma StatusCarriesIff(idx: nat, c: OutCmd)
    requires c.cmd == Tag.Status
    ensures Carries(Decoded(idx, c), c) <==> Survives(c)
  {
    ShownIff(c.msgRef.GetOr("1"));
    ShownIff(c.cmdRef.GetOr("0"));
    ShownIff(c.refCmd.GetOr("SyncHdr"));
    ShownIff(c.targetRef.GetOr(""));
    ShownIff(c.sourceRef.GetOr(""));
    ShownIff(c.data.GetOr("200"));
    assert Clean("1") && Clean("0") && Clean("SyncHdr") && Clean("200");
  }

  lemma DecodedCarriesIff(idx: nat, c: OutCmd)
    requires Known(c)
    ensures Carries(Decoded(idx, c), c) <==> Survives(c)
    ensures Decoded(idx, c).cmdId == Decimal(idx)
  {
    if c.cmd == Tag.Status {
      StatusCarriesIff(idx, c);
    } else if c.cmd == Tag.Alert {
      ShownIff(c.data.GetOr("1200"));
      assert Clean("1200");
    }
  }

  lemma {:induction false} DecodedAllLength(commands: seq<OutCmd>)
    requires forall i :: 0 <= i < |commands| ==> commands[i].cmd != Tag.Final
    ensures |DecodedAll(commands)| == |commands|
  {
    if commands != [] {
      DecodedAllLength(commands[..|commands| - 1]);
    }
  }

  lemma {:induction false} DecodedAllIndex(commands: seq<OutCmd>, i: nat)
    requires forall k :: 0 <= k < |commands| ==> commands[k].cmd != Tag.Final
    requires i < |commands| == |DecodedAll(commands)|
    ensures DecodedAll(commands)[i] == Decoded(i + 1, commands[i])
  {
    var n := |commands| - 1;
    DecodedAllLength(commands[..n]);
    if i < n {
      DecodedAllIndex(commands[..n], i);
    }
  }

  lemma DecodedAllCarries(commands: seq<OutCmd>)
    requires forall i :: 0 <= i < |commands| ==> Survives(commands[i])
    ensures |DecodedAll(commands)| == |commands|
    ensures forall i :: 0 <= i < |commands| ==>
      Carries(DecodedAll(commands)[i], commands[i]) && DecodedAll(commands)[i].cmdId == Decimal(i + 1)
  {
    DecodedAllLength(commands);
    forall i | 0 <= i < |commands|
      ensures Carries(DecodedAll(commands)[i], commands[i]) && DecodedAll(commands)[i].cmdId == Decimal(i + 1)
    {
      DecodedAllIndex(commands, i);
      DecodedCarriesIff(i + 1, commands[i]);
    }
  }

  /**
   * Round trip: for clean texts, parsing a built message returns the session and message id, the
   * device as target and the server as source, and the same commands in order, numbered "1".."n".
   */
  lemma RoundTrip(sessionId: string, msgId: string, serverUri: string, deviceUri: string, commands: seq<OutCmd>)
    requires Clean(sessionId) && Clean(msgId) && Trimmed(serverUri) && Trimmed(deviceUri)
    requires forall i :: 0 <= i < |commands| ==> Survives(commands[i])
    ensures var r := ParseTree(MessageTree(sessionId, msgId, serverUri, deviceUri, commands));
      && r.Ok? && r.value.header == SyncHdr.SyncHdr(sessionId, msgId, deviceUri, serverUri)
      && |r.value.commands| == |commands|
      && forall i :: 0 <= i < |commands| ==>
           Carries(r.value.commands[i], commands[i]) && r.value.commands[i].cmdId == Decimal(i + 1)
  {
    ParseUndoesBuild(sessionId, msgId, serverUri, deviceUri, commands);
    ShownIff(sessionId);
    ShownIff(msgId);
    StripFixesTrimmed(serverUri);
    StripFixesTrimmed(deviceUri);
    DecodedAllCarries(commands);
  }

  /** parse never fills the items of a Status. */
  lemma {:induction false} StatusHasNoItems(els: seq<Node>)
    ensures forall c :: c in ParseCommands(els) && c.cmd == Tag.Status ==> c.items == []
  {
    if els != [] {
      StatusHasNoItems(els[..|els| - 1]);
    }
  }
}
