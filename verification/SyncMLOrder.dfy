/** The order of the parts in a built message. */
module SyncMLOrder {
  import opened Prelude
  import opened SyncML

  /** The place of each part within its parent. */
  function Rank(tag: Tag): nat {
    match tag
    case VerDTD => 0
    case VerProto => 1
    case SessionID => 2
    case MsgID => 3
    case CmdID => 4
    case MsgRef => 5
    case CmdRef => 6
    case Cmd => 7
    case TargetRef => 8
    case SourceRef => 9
    case Target => 10
    case Source => 11
    case Meta => 12
    case Format => 13
    case Type => 14
    case Data => 15
    case Item => 16
    case _ => 17
  }

  predicate InOrder(kids: seq<Node>) {
    forall i, j :: 0 <= i < j < |kids| ==> Rank(kids[i].tag) < Rank(kids[j].tag)
  }

  lemma OrderedConcat(a: seq<Node>, b: seq<Node>, rank: nat)
    requires InOrder(a) && InOrder(b)
    requires (forall n :: n in a ==> Rank(n.tag) < rank) && (forall n :: n in b ==> rank <= Rank(n.tag))
    ensures InOrder(a + b)
  {
    var all := a + b;
    forall i, j | 0 <= i < j < |all| ensures Rank(all[i].tag) < Rank(all[j].tag) {
      assert i < |a| ==> a[i] in a;
      assert j >= |a| ==> b[j - |a|] in b;
    }
  }

  predicate RanksWithin(kids: seq<Node>, lo: nat, hi: nat) {
    forall n :: n in kids ==> lo <= Rank(n.tag) < hi
  }

  lemma RanksOfConcat(a: seq<Node>, b: seq<Node>, lo: nat, hi: nat)
    requires RanksWithin(a, lo, hi) && RanksWithin(b, lo, hi)
    ensures RanksWithin(a + b, lo, hi)
  {
    assert forall n :: n in a + b <==> n in a || n in b;
  }

  lemma StatusPartsAreInOrder(refs: seq<Node>, tgt: Option<string>, src: Option<string>, data: string)
    requires InOrder(refs) && RanksWithin(refs, 5, 8)
    ensures var kids := refs + Given(Tag.TargetRef, tgt) + Given(Tag.SourceRef, src) + [Leaf(Tag.Data, data)];
      InOrder(kids) && RanksWithin(kids, 5, 16)
  {
    var t, s := Given(Tag.TargetRef, tgt), Given(Tag.SourceRef, src);
    OrderedConcat(refs, t, 8);
    RanksOfConcat(refs, t, 5, 9);
    OrderedConcat(refs + t, s, 9);
    RanksOfConcat(refs + t, s, 5, 10);
    OrderedConcat(refs + t + s, [Leaf(Tag.Data, data)], 15);
    RanksOfConcat(refs + t + s, [Leaf(Tag.Data, data)], 5, 16);
  }

  lemma StatusIsInOrder(c: OutCmd)
    requires c.cmd == Tag.Status
    ensures InOrder(Body(c)) && RanksWithin(Body(c), 5, 16)
  {
    var refs := [Leaf(Tag.MsgRef, c.msgRef.GetOr("1")), Leaf(Tag.CmdRef, c.cmdRef.GetOr("0")),
                 Leaf(Tag.Cmd, c.refCmd.GetOr("SyncHdr"))];
    StatusPartsAreInOrder(refs, c.targetRef, c.sourceRef, c.data.GetOr("200"));
  }

  predicate ItemInOrder(item: Node) {
    InOrder(item.children) && forall meta :: meta in item.children ==> InOrder(meta.children)
  }

  lemma ReplaceItemIsInOrder(c: OutCmd)
    ensures ItemInOrder(Node(Tag.Item, "", Optional(c) + MetaNodes(c) + DataChild(c.data)))
  {
    OrderedConcat(Optional(c), MetaNodes(c), 12);
    OrderedConcat(Optional(c) + MetaNodes(c), DataChild(c.data), 15);
    OrderedConcat(Given(Tag.Format, c.metaFormat), Given(Tag.Type, c.metaType), 14);
  }

  lemma ExecItemIsInOrder(uri: string, data: Option<string>)
    ensures ItemInOrder(Node(Tag.Item, "", [TargetNode(uri)] + DataChild(data)))
  {
    OrderedConcat([TargetNode(uri)], DataChild(data), 15);
  }

  predicate ItemsInOrder(kids: seq<Node>) {
    forall n :: n in kids && n.tag == Tag.Item ==> ItemInOrder(n)
  }

  lemma OneItemIsInOrder(item: Node)
    requires item.tag == Tag.Item && ItemInOrder(item)
    ensures InOrder([item]) && RanksWithin([item], 5, 17) && ItemsInOrder([item])
  {
  }

  lemma NoItemIsInOrder(kids: seq<Node>)
    requires RanksWithin(kids, 5, 16)
    ensures RanksWithin(kids, 5, 17) && ItemsInOrder(kids)
  {
  }

  lemma ItemBodyIsInOrder(c: OutCmd)
    requires c.cmd in {Tag.Replace, Tag.Add, Tag.Exec, Tag.Get}
    ensures |Body(c)| == 1 && Body(c)[0].tag == Tag.Item && ItemInOrder(Body(c)[0])
  {
    if c.cmd in {Tag.Replace, Tag.Add} {
      ReplaceItemIsInOrder(c);
    } else {
      var target := c.target.GetOr("");
      ExecItemIsInOrder(target, if c.cmd == Tag.Exec then c.data else None);
      assert [TargetNode(target)] + DataChild(None) == [TargetNode(target)];
    }
  }

  lemma BodyIsInOrder(c: OutCmd)
    ensures InOrder(Body(c)) && RanksWithin(Body(c), 5, 17) && ItemsInOrder(Body(c))
  {
    if c.cmd in {Tag.Replace, Tag.Add, Tag.Exec, Tag.Get} {
      ItemBodyIsInOrder(c);
      assert Body(c) == [Body(c)[0]];
      OneItemIsInOrder(Body(c)[0]);
    } else {
      if c.cmd == Tag.Status {
        StatusIsInOrder(c);
      }
      NoItemIsInOrder(Body(c));
    }
  }

  lemma IdInFront(id: Node, kids: seq<Node>)
    requires id.tag == Tag.CmdID && InOrder(kids) && RanksWithin(kids, 5, 17) && ItemsInOrder(kids)
    ensures InOrder([id] + kids) && ItemsInOrder([id] + kids)
  {
    OrderedConcat([id], kids, 5);
    assert forall n :: n in [id] + kids <==> n == id || n in kids;
  }

  /** The parts of a built command, of its item and of the item's meta stand in order, the id first. */
  lemma ElementIsInOrder(idx: nat, c: OutCmd)
    ensures var el := Element(idx, c);
      && el.tag == c.cmd && el.children[0] == Leaf(Tag.CmdID, Decimal(idx))
      && InOrder(el.children) && ItemsInOrder(el.children)
  {
    BodyIsInOrder(c);
    IdInFront(Leaf(Tag.CmdID, Decimal(idx)), Body(c));
  }

  /** So do the parts of the header. */
  lemma HeaderIsInOrder(sessionId: string, msgId: string, serverUri: string, deviceUri: string)
    ensures InOrder(Header(sessionId, msgId, serverUri, deviceUri).children)
  {
  }
}
