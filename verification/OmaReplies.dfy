/** What one OMA-DM session means on the wire: which reply settles which command, and what the device is sent. */
module OmaReplies {
  import opened Prelude
  import opened WorkLists
  import opened OmaDm
  import SyncML

  /** The positions of the message's elements with this tag, in order. */
  function Tagged(cmds: seq<SyncML.SyncCmd>, tag: SyncML.Tag): seq<nat> {
    Indices(seq(|cmds|, i requires 0 <= i < |cmds| => cmds[i].cmd == tag))
  }

  lemma TaggedExactly(cmds: seq<SyncML.SyncCmd>, tag: SyncML.Tag)
    ensures Ascending(Tagged(cmds, tag))
    ensures forall i :: i in Tagged(cmds, tag) <==> 0 <= i < |cmds| && cmds[i].cmd == tag
    ensures forall k :: 0 <= k < |Tagged(cmds, tag)| ==> Tagged(cmds, tag)[k] < |cmds|
  {
    IndicesElements(seq(|cmds|, i requires 0 <= i < |cmds| => cmds[i].cmd == tag));
    assert forall k :: 0 <= k < |Tagged(cmds, tag)| ==> Tagged(cmds, tag)[k] in Tagged(cmds, tag);
  }

  lemma TaggedSnoc(cmds: seq<SyncML.SyncCmd>, tag: SyncML.Tag)
    requires cmds != []
    ensures var n := |cmds| - 1;
      Tagged(cmds, tag) == Tagged(cmds[..n], tag) + if cmds[n].cmd == tag then [n] else []
  {
    var n := |cmds| - 1;
    var mask := seq(|cmds|, i requires 0 <= i < |cmds| => cmds[i].cmd == tag);
    assert mask[..n] == seq(n, i requires 0 <= i < n => cmds[..n][i].cmd == tag);
  }

  /** Oldest first, a device's rows with one status and no others. */
  lemma ListedExactly(rows: seq<Command>, device: string, status: CommandStatus)
    ensures Ascending(Listed(rows, device, status))
    ensures forall i :: i in Listed(rows, device, status) <==>
      0 <= i < |rows| && rows[i].device == device && rows[i].status == status
    ensures forall k :: 0 <= k < |Listed(rows, device, status)| ==> Listed(rows, device, status)[k] < |rows|
  {
    IndicesElements(Mask(rows, device, status));
    assert forall k :: 0 <= k < |Listed(rows, device, status)| ==>
      Listed(rows, device, status)[k] in Listed(rows, device, status);
  }

  // ----- Status replies -----

  lemma {:induction false} OutcomeCount(cmds: seq<SyncML.SyncCmd>)
    ensures |Outcomes(cmds)| == |Tagged(cmds, SyncML.Tag.Status)|
  {
    if cmds != [] {
      OutcomeCount(cmds[..|cmds| - 1]);
      TaggedSnoc(cmds, SyncML.Tag.Status);
    }
  }

  lemma {:induction false} OutcomeAt(cmds: seq<SyncML.SyncCmd>, k: nat)
    requires k < |Outcomes(cmds)|
    ensures k < |Tagged(cmds, SyncML.Tag.Status)| && Tagged(cmds, SyncML.Tag.Status)[k] < |cmds|
    ensures Outcomes(cmds)[k]
         == if cmds[Tagged(cmds, SyncML.Tag.Status)[k]].data == Some("200") then Completed else Failed
  {
    var n := |cmds| - 1;
    OutcomeCount(cmds);
    OutcomeCount(cmds[..n]);
    TaggedSnoc(cmds, SyncML.Tag.Status);
    if k < |Outcomes(cmds[..n])| {
      OutcomeAt(cmds[..n], k);
    }
  }

  /**
   * For every parsed message, the k-th oldest delivered command of the device ends completed exactly
   * when the k-th Status element's Data is "200", and failed otherwise; no other row changes.
   */
  lemma RepliesSettleOldest(rows: seq<Command>, device: string, els: seq<SyncML.Node>)
    ensures var cmds := SyncML.ParseCommands(els); var after := RowsAfter(rows, device, cmds);
      var replies := Tagged(cmds, SyncML.Tag.Status); var waiting := Listed(rows, device, Delivered);
      && |after| == |rows|
      && (forall k: nat :: k < |replies| && k < |waiting| ==>
            && replies[k] < |cmds| && waiting[k] < |rows|
            && after[waiting[k]] == rows[waiting[k]].(
                 status := if cmds[replies[k]].data == Some("200") then Completed else Failed))
      && (forall i :: 0 <= i < |rows| && i !in waiting[..Min(|replies|, |waiting|)] ==> after[i] == rows[i])
  {
    var cmds := SyncML.ParseCommands(els);
    var after := RowsAfter(rows, device, cmds);
    var replies, waiting := Tagged(cmds, SyncML.Tag.Status), Listed(rows, device, Delivered);
    ParsedMessageResolvesOldest(rows, device, els);
    OutcomeCount(cmds);
    forall k: nat | k < |replies| && k < |waiting|
      ensures replies[k] < |cmds| && waiting[k] < |rows|
      ensures after[waiting[k]] == rows[waiting[k]].(
        status := if cmds[replies[k]].data == Some("200") then Completed else Failed)
    {
      OutcomeAt(cmds, k);
    }
  }

  /** A reply that names a command settles the rows with that uuid and no others. */
  lemma NamedReplySettles(rows: seq<Command>, device: string, cmd: SyncML.SyncCmd, uuid: string, i: nat)
    requires UuidOf(cmd.items) == Some(uuid) && uuid != "" && i < |rows|
    ensures |ProcessStatus(rows, device, cmd)| == |rows|
    ensures ProcessStatus(rows, device, cmd)[i]
         == if rows[i].uuid != uuid then rows[i]
            else rows[i].(status := if cmd.data == Some("200") then Completed else Failed)
  {
  }

  /** The first item whose URI, its target or else its source, carries a mark decides the uuid. */
  lemma {:induction false} FirstMarkedItemDecides(items: seq<SyncML.SyncItem>, k: nat)
    requires k < |items| && HasMark(UriOf(items[k])) && forall j :: 0 <= j < k ==> !HasMark(UriOf(items[j]))
    ensures UuidOf(items) == Some(LastPiece(
      match items[k].target
      case Some(uri) => if uri != "" then uri else items[k].source.GetOr("")
      case None => items[k].source.GetOr("")))
  {
    if k > 0 {
      FirstMarkedItemDecides(items[1..], k - 1);
    }
  }

  // ----- What the device is sent -----

  /** The k-th Alert of the message is acknowledged by the k-th of these, with its own id. */
  lemma {:induction false} AckCount(msgId: string, cmds: seq<SyncML.SyncCmd>)
    ensures |Acks(msgId, cmds)| == |Tagged(cmds, SyncML.Tag.Alert)|
  {
    if cmds != [] {
      AckCount(msgId, cmds[..|cmds| - 1]);
      TaggedSnoc(cmds, SyncML.Tag.Alert);
    }
  }

  lemma {:induction false} AlertsAreAcknowledged(msgId: string, cmds: seq<SyncML.SyncCmd>, k: nat)
    requires k < |Tagged(cmds, SyncML.Tag.Alert)|
    ensures |Acks(msgId, cmds)| == |Tagged(cmds, SyncML.Tag.Alert)| && Tagged(cmds, SyncML.Tag.Alert)[k] < |cmds|
    ensures Acks(msgId, cmds)[k] == SyncML.OutCmd(
      SyncML.Tag.Status, Some(msgId), Some(cmds[Tagged(cmds, SyncML.Tag.Alert)[k]].cmdId), Some("Alert"),
      None, None, Some("200"), None, None, None)
  {
    var n := |cmds| - 1;
    AckCount(msgId, cmds);
    AckCount(msgId, cmds[..n]);
    TaggedSnoc(cmds, SyncML.Tag.Alert);
    if k < |Tagged(cmds[..n], SyncML.Tag.Alert)| {
      AlertsAreAcknowledged(msgId, cmds[..n], k);
    }
  }

  /** A session's reply: the header's acknowledgement, the Alerts', and the commands of the rows it delivers. */
  lemma ReplyHasThreeParts(rows: seq<Command>, device: string, msg: SyncML.SyncMsg, infoMissing: bool, uuid: string)
    ensures var h := msg.header; var reply := Session(rows, device, msg, infoMissing, uuid).1;
      var acks := Acks(h.msgId, msg.commands);
      var ready := AutoQuery(RowsAfter(rows, device, msg.commands), device, infoMissing, uuid);
      && reply != []
      && reply[0] == SyncML.OutCmd(
           SyncML.Tag.Status, Some(h.msgId), Some("0"), Some("SyncHdr"),
           if h.targetUri == "" then None else Some(h.targetUri),
           if h.sourceUri == "" then None else Some(h.sourceUri), Some("200"), None, None, None)
      && reply[1..] == acks + Expand(ready, Batch(ready, device))
  {
    var h, acks := msg.header, Acks(msg.header.msgId, msg.commands);
    var ready := AutoQuery(RowsAfter(rows, device, msg.commands), device, infoMissing, uuid);
    var head := StatusOk(h.msgId, "0", "SyncHdr", h.targetUri, h.sourceUri);
    Associate([head], acks, Expand(ready, Batch(ready, device)));
  }

  /** What the device reads for each SyncML command of a delivered one: a Get for each node, or one Exec, tagged. */
  lemma DeviceReadsCommand(c: Command, i: nat, idx: nat)
    requires i < |BuildSyncmlCmds(c)|
    ensures |BuildSyncmlCmds(c)| == if c.kind == "DeviceQuery" then |c.nodes| else 1
    ensures var query := c.kind == "DeviceQuery";
      var d := SyncML.Decoded(idx, BuildSyncmlCmds(c)[i]);
      && d.cmd == (if query then SyncML.Tag.Get else SyncML.Tag.Exec)
      && d.items == [SyncML.SyncItem(
           Some((if query then c.nodes[i] else c.target) + ['?', 'i', 'd', '='] + c.uuid), None,
           if query || c.data == Some("") then None else c.data, None, None)]
  {
  }

  /** The SyncML commands of each delivered row. */
  function Asked(rows: seq<Command>, picked: seq<nat>): seq<seq<SyncML.OutCmd>>
    requires forall j :: 0 <= j < |picked| ==> picked[j] < |rows|
  {
    seq(|picked|, k requires 0 <= k < |picked| => BuildSyncmlCmds(rows[picked[k]]))
  }

  /** The delivered rows' commands fill the end of the reply, row after row and each in full. */
  lemma {:induction false} DeliveredFillReply(rows: seq<Command>, picked: seq<nat>)
    requires forall j :: 0 <= j < |picked| ==> picked[j] < |rows|
    ensures Expand(rows, picked) == Flatten(Asked(rows, picked))
  {
    if picked != [] {
      var n := |picked| - 1;
      DeliveredFillReply(rows, picked[..n]);
      assert Asked(rows, picked)[..n] == Asked(rows, picked[..n]);
    }
  }

  /** A query is added exactly when the device's details are missing and it never had one; it asks for these nodes. */
  lemma AutomaticQueryAsks(rows: seq<Command>, device: string, infoMissing: bool, uuid: string)
    ensures AutoQuery(rows, device, infoMissing, uuid) ==
      if infoMissing && forall i :: 0 <= i < |rows| ==> !(rows[i].device == device && rows[i].kind == "DeviceQuery")
      then rows + [Command(uuid, device, "DeviceQuery", [
        "./DevInfo/DevId", "./DevInfo/Man", "./DevInfo/Mod", "./DevDetail/SwV", "./DevDetail/HwV",
        "./DevDetail/DevTyp", "./DevDetail/Ext/Microsoft/DNSComputerName",
        "./DevDetail/Ext/Microsoft/SMBIOSSerialNumber"], "", None, Queued, true)]
      else rows
  {
  }
}
