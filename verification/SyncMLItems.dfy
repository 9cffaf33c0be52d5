/** Decoding what devices send with items, such as Results: the decoder against a printer of items. */
module SyncMLItems {
  import opened Prelude
  import opened SyncML

  /** An item with each part it has: target, source, meta and data. */
  function ItemTree(item: SyncItem): Node {
    Node(Tag.Item, "",
      UriPart(Tag.Target, item.target) + UriPart(Tag.Source, item.source) + MetaPart(item) + DataChild(item.data))
  }

  function UriPart(tag: Tag, uri: Option<string>): seq<Node> {
    match uri
    case None => []
    case Some(u) => [Node(tag, "", [Leaf(Tag.LocURI, u)])]
  }

  function TextPart(tag: Tag, text: Option<string>): seq<Node> {
    match text
    case None => []
    case Some(t) => [Leaf(tag, t)]
  }

  function MetaPart(item: SyncItem): seq<Node> {
    if item.metaType == None && item.metaFormat == None then []
    else [Node(Tag.Meta, "", TextPart(Tag.Type, item.metaType) + TextPart(Tag.Format, item.metaFormat))]
  }

  /** The parts an empty text would be lost from. */
  predicate Written(item: SyncItem) {
    item.data != Some("") && item.metaType != Some("") && item.metaFormat != Some("")
  }

  lemma FourParts(tgt: seq<Node>, src: seq<Node>, meta: seq<Node>, data: seq<Node>)
    requires |tgt| <= 1 && (forall n :: n in tgt ==> n.tag == Tag.Target)
    requires |src| <= 1 && (forall n :: n in src ==> n.tag == Tag.Source)
    requires |meta| <= 1 && (forall n :: n in meta ==> n.tag == Tag.Meta)
    requires |data| <= 1 && (forall n :: n in data ==> n.tag == Tag.Data)
    ensures var kids := tgt + src + meta + data;
      && First(kids, Tag.Target) == (if tgt == [] then None else Some(tgt[0]))
      && First(kids, Tag.Source) == (if src == [] then None else Some(src[0]))
      && First(kids, Tag.Meta) == (if meta == [] then None else Some(meta[0]))
      && First(kids, Tag.Data) == (if data == [] then None else Some(data[0]))
  {
    FirstOf([], tgt, src + meta + data, Tag.Target);
    FirstOf(tgt, src, meta + data, Tag.Source);
    FirstOf(tgt + src, meta, data, Tag.Meta);
    FirstOf(tgt + src + meta, data, [], Tag.Data);
    var kids := tgt + src + meta + data;
    assert kids == [] + tgt + (src + meta + data) == tgt + src + (meta + data) == tgt + src + meta + data + [];
  }

  /** A part that is the only place for its tag. */
  lemma FirstOf(before: seq<Node>, part: seq<Node>, after: seq<Node>, tag: Tag)
    requires |part| <= 1 && forall n :: n in part ==> n.tag == tag
    requires forall n :: n in before || n in after ==> n.tag != tag
    ensures First(before + part + after, tag) == if part == [] then None else Some(part[0])
  {
    if part == [] {
      FirstNone(before + part + after, tag);
    } else {
      FirstAt(before + part + after, tag, |before|);
    }
  }

  lemma UriPartReadsBack(tag: Tag, uri: Option<string>)
    ensures LocUri(if UriPart(tag, uri) == [] then None else Some(UriPart(tag, uri)[0])) == uri
  {
    if uri.Some? {
      FirstAt([Leaf(Tag.LocURI, uri.value)], Tag.LocURI, 0);
    }
  }

  lemma MetaPartReadsBack(item: SyncItem)
    requires MetaPart(item) != []
    ensures TextOf(First(MetaPart(item)[0].children, Tag.Type)) == Kept(item.metaType.GetOr(""))
    ensures TextOf(First(MetaPart(item)[0].children, Tag.Format)) == Kept(item.metaFormat.GetOr(""))
  {
    var kids := MetaPart(item)[0].children;
    if item.metaType.Some? { FirstAt(kids, Tag.Type, 0); } else { FirstNone(kids, Tag.Type); }
    if item.metaFormat.Some? { FirstAt(kids, Tag.Format, |kids| - 1); } else { FirstNone(kids, Tag.Format); }
  }

  lemma ItemReads(item: SyncItem)
    ensures ParseItem(ItemTree(item)) == SyncItem(
      item.target, item.source, Kept(item.data.GetOr("")),
      Kept(item.metaType.GetOr("")), Kept(item.metaFormat.GetOr("")))
  {
    var tgt, src := UriPart(Tag.Target, item.target), UriPart(Tag.Source, item.source);
    FourParts(tgt, src, MetaPart(item), DataChild(item.data));
    UriPartReadsBack(Tag.Target, item.target);
    UriPartReadsBack(Tag.Source, item.source);
    if MetaPart(item) != [] {
      MetaPartReadsBack(item);
    }
  }

  /** An item is read back, each part in its place, exactly when its data and meta texts are not empty. */
  lemma ItemReadsBackIff(item: SyncItem)
    ensures ParseItem(ItemTree(item)) == item <==> Written(item)
  {
    ItemReads(item);
  }

  function ItemTrees(items: seq<SyncItem>): seq<Node> {
    seq(|items|, i requires 0 <= i < |items| => ItemTree(items[i]))
  }

  lemma ParseItemsSnoc(front: seq<Node>, item: Node)
    requires item.tag == Tag.Item
    ensures ParseItems(front + [item]) == ParseItems(front) + [ParseItem(item)]
  {
    assert (front + [item])[..|front|] == front;
  }

  function ReadAll(trees: seq<Node>): seq<SyncItem> {
    seq(|trees|, i requires 0 <= i < |trees| => ParseItem(trees[i]))
  }

  lemma ReadAllSnoc(front: seq<Node>, last: Node)
    ensures ReadAll(front + [last]) == ReadAll(front) + [ParseItem(last)]
  {
  }

  /** Items behind a command's id are read one by one, in order. */
  lemma {:induction false} ItemsAreReadInOrder(id: Node, trees: seq<Node>)
    requires id.tag != Tag.Item && forall i :: 0 <= i < |trees| ==> trees[i].tag == Tag.Item
    ensures ParseItems([id] + trees) == ReadAll(trees)
  {
    if trees == [] {
      OneItem(id, Leaf(Tag.Item, ""));
      assert [id] + trees == [id];
    } else {
      var front, last := trees[..|trees| - 1], trees[|trees| - 1];
      ItemsAreReadInOrder(id, front);
      ParseItemsSnoc([id] + front, last);
      ReadAllSnoc(front, last);
      assert trees == front + [last];
      Associate([id], front, [last]);
    }
  }

  lemma ItemsReadBack(id: Node, items: seq<SyncItem>)
    requires id.tag != Tag.Item && forall i :: 0 <= i < |items| ==> Written(items[i])
    ensures ParseItems([id] + ItemTrees(items)) == items
  {
    ItemsAreReadInOrder(id, ItemTrees(items));
    forall i | 0 <= i < |items| ensures ReadAll(ItemTrees(items))[i] == items[i] {
      ItemReadsBackIff(items[i]);
    }
  }

  /** A device's Results, or any command with items, is read back with all its items in order. */
  lemma ResultsReadBack(tag: Tag, id: string, items: seq<SyncItem>)
    requires tag !in {Tag.Alert, Tag.Status} && Clean(id)
    requires forall i :: 0 <= i < |items| ==> Written(items[i])
    ensures ParseCommand(Node(tag, "", [Leaf(Tag.CmdID, id)] + ItemTrees(items)))
         == SyncCmd(tag, id, items, None, None, None, None, None, None)
  {
    var el := Node(tag, "", [Leaf(Tag.CmdID, id)] + ItemTrees(items));
    ItemsReadBack(Leaf(Tag.CmdID, id), items);
    FirstAt(el.children, Tag.CmdID, 0);
    ShownIff(id);
  }
}
