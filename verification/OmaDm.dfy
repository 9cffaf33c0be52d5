/** OMA-DM sessions: resolving Status replies, the automatic DeviceQuery and delivery of queued commands. */
module OmaDm {
  import opened Prelude
  import opened WorkLists
  import SyncML

  datatype CommandStatus = Queued | Delivered | Completed | Failed

  /** A stored command with the parts of its payload that build_syncml_cmds reads. */
  datatype Command = Command(
    uuid: string,
    device: string,
    kind: string,
    nodes: seq<string>,
    target: string,
    data: Option<string>,
    status: CommandStatus,
    auto: bool)   // queued by a session rather than by an administrator

  // Tables are listed in queued_at order: new rows come last.

  // ----- commands.py -----

  const IdMark := ['?', 'i', 'd', '=']
  const QUERY := "DeviceQuery"

  const Nodes: seq<string> := [
    "./DevInfo/DevId", "./DevInfo/Man", "./DevInfo/Mod", "./DevDetail/SwV", "./DevDetail/HwV", "./DevDetail/DevTyp",
    "./DevDetail/Ext/Microsoft/DNSComputerName", "./DevDetail/Ext/Microsoft/SMBIOSSerialNumber"]

  function MakeQuery(device: string, uuid: string): Command {
    Command(uuid, device, QUERY, Nodes, "", None, Queued, true)
  }

  function Tagged(uri: string, uuid: string): string {
    uri + IdMark + uuid
  }

  function Out(tag: SyncML.Tag, target: string, data: Option<string>): SyncML.OutCmd {
    SyncML.OutCmd(tag, None, None, None, None, None, data, Some(target), None, None)
  }

  function BuildSyncmlCmds(c: Command): seq<SyncML.OutCmd> {
    if c.kind == QUERY then
      seq(|c.nodes|, i requires 0 <= i < |c.nodes| => Out(SyncML.Tag.Get, Tagged(c.nodes[i], c.uuid), None))
    else [Out(SyncML.Tag.Exec, Tagged(c.target, c.uuid), c.data)]
  }

  // ----- str.split("?id=")[-1] -----

  predicate MarkAt(s: string, i: nat) {
    i + 4 <= |s| && s[i] == '?' && s[i + 1] == 'i' && s[i + 2] == 'd' && s[i + 3] == '='
  }

  predicate HasMark(s: string) {
    exists i | 0 <= i < |s| :: MarkAt(s, i)
  }

  /** The first occurrence of the mark, scanning from the left. */
  function FirstMark(s: string, from: nat): (r: Option<nat>)
    ensures r.Some? ==> from <= r.value && MarkAt(s, r.value) && forall j :: from <= j < r.value ==> !MarkAt(s, j)
    ensures r.None? ==> forall j :: from <= j < |s| ==> !MarkAt(s, j)
    decreases |s| - from
  {
    if from >= |s| then None
    else if MarkAt(s, from) then Some(from)
    else FirstMark(s, from + 1)
  }

  /** The pieces between left-to-right occurrences of the mark. */
  function Split(s: string): (r: seq<string>)
    ensures r != []
    decreases |s|
  {
    match FirstMark(s, 0)
    case None => [s]
    case Some(i) => [s[..i]] + Split(s[i + 4..])
  }

  function LastPiece(s: string): string {
    Split(s)[|Split(s)| - 1]
  }

  lemma NoMarkNoSplit(s: string)
    requires !HasMark(s)
    ensures LastPiece(s) == s
  {
  }

  /** Splitting a tagged URI gives back the text after the tag, as long as that has no mark itself. */
  lemma {:induction false} LastPieceOfTagged(uri: string, uuid: string)
    requires !HasMark(uuid)
    ensures LastPiece(Tagged(uri, uuid)) == uuid
    decreases |uri|
  {
    var s := Tagged(uri, uuid);
    assert MarkAt(s, |uri|);
    var i := FirstMark(s, 0).value;
    var rest := s[i + 4..];
    if i == |uri| {
      assert rest == uuid;
      NoMarkNoSplit(uuid);
    } else {
      assert i + 4 <= |uri|;   // the mark cannot overlap itself
      assert rest == Tagged(uri[i + 4..], uuid);
      LastPieceOfTagged(uri[i + 4..], uuid);
    }
  }

  lemma {:induction false} LastPieceHasNoMark(s: string)
    ensures !HasMark(LastPiece(s))
    decreases |s|
  {
    match FirstMark(s, 0)
    case None =>
    case Some(i) => LastPieceHasNoMark(s[i + 4..]);
  }

  /** _process_status recovers the uuid build_syncml_cmds embedded exactly when it holds no "?id=". */
  lemma UuidRecoveredIff(uri: string, uuid: string)
    ensures HasMark(Tagged(uri, uuid))
    ensures LastPiece(Tagged(uri, uuid)) == uuid <==> !HasMark(uuid)
  {
    assert MarkAt(Tagged(uri, uuid), |uri|);
    LastPieceHasNoMark(Tagged(uri, uuid));
    if !HasMark(uuid) {
      LastPieceOfTagged(uri, uuid);
    }
  }

  // ----- _process_status -----

  function UriOf(item: SyncML.SyncItem): string {
    if item.target.GetOr("") != "" then item.target.value else item.source.GetOr("")
  }

  function UuidOf(items: seq<SyncML.SyncItem>): Option<string> {
    if items == [] then None
    else if HasMark(UriOf(items[0])) then Some(LastPiece(UriOf(items[0])))
    else UuidOf(items[1..])
  }

  function Outcome(data: Option<string>): CommandStatus {
    if data == Some("200") then Completed else Failed
  }

  function Mask(rows: seq<Command>, device: string, status: CommandStatus): seq<bool> {
    seq(|rows|, i requires 0 <= i < |rows| => rows[i].device == device && rows[i].status == status)
  }

  /** The device's rows with this status, oldest first. */
  function Listed(rows: seq<Command>, device: string, status: CommandStatus): seq<nat> {
    Indices(Mask(rows, device, status))
  }

  function ResolveUuid(rows: seq<Command>, uuid: string, outcome: CommandStatus): seq<Command> {
    seq(|rows|, i requires 0 <= i < |rows| =>
      if rows[i].uuid == uuid then rows[i].(status := outcome) else rows[i])
  }

  function ResolveOldest(rows: seq<Command>, device: string, outcome: CommandStatus): (r: seq<Command>)
    ensures |r| == |rows|
  {
    var delivered := Listed(rows, device, Delivered);
    if delivered == [] then rows
    else
      IndicesElements(Mask(rows, device, Delivered));
      assert delivered[0] in delivered;
      rows[delivered[0] := rows[delivered[0]].(status := outcome)]
  }

  function ProcessStatus(rows: seq<Command>, device: string, cmd: SyncML.SyncCmd): seq<Command> {
    var uuid := UuidOf(cmd.items);
    if uuid.GetOr("") != "" then ResolveUuid(rows, uuid.value, Outcome(cmd.data))
    else ResolveOldest(rows, device, Outcome(cmd.data))
  }

  // ----- omadm_sync -----

  function StatusOk(msgRef: string, cmdRef: string, refCmd: string, targetRef: string, sourceRef: string)
    : SyncML.OutCmd
  {
    SyncML.OutCmd(SyncML.Tag.Status, Some(msgRef), Some(cmdRef), Some(refCmd),
      if targetRef == "" then None else Some(targetRef), if sourceRef == "" then None else Some(sourceRef),
      Some("200"), None, None, None)
  }

  /** The rows after the loop over the message's commands. */
  function RowsAfter(rows: seq<Command>, device: string, cmds: seq<SyncML.SyncCmd>): seq<Command> {
    if cmds == [] then rows
    else
      var n := |cmds| - 1;
      var before := RowsAfter(rows, device, cmds[..n]);
      if cmds[n].cmd == SyncML.Tag.Status then ProcessStatus(before, device, cmds[n]) else before
  }

  /** What that loop appends to the reply: one acknowledgement per Alert. */
  function Acks(msgId: string, cmds: seq<SyncML.SyncCmd>): seq<SyncML.OutCmd> {
    if cmds == [] then []
    else
      var n := |cmds| - 1;
      Acks(msgId, cmds[..n])
      + if cmds[n].cmd == SyncML.Tag.Alert then [StatusOk(msgId, cmds[n].cmdId, "Alert", "", "")] else []
  }

  predicate HasQuery(rows: seq<Command>, device: string) {
    exists i | 0 <= i < |rows| :: rows[i].device == device && rows[i].kind == QUERY
  }

  /** `infoMissing`: the device row still has neither os_version nor hostname. */
  function AutoQuery(rows: seq<Command>, device: string, infoMissing: bool, uuid: string): seq<Command> {
    if infoMissing && !HasQuery(rows, device) then rows + [MakeQuery(device, uuid)] else rows
  }

  const BATCH := 5

  function Batch(rows: seq<Command>, device: string): (r: seq<nat>)
    ensures forall k :: 0 <= k < |r| ==> r[k] < |rows|
  {
    IndicesElements(Mask(rows, device, Queued));
    var all := Listed(rows, device, Queued);
    assert forall k :: 0 <= k < |all| ==> all[k] in all;
    all[..Min(BATCH, |all|)]
  }

  lemma BatchDistinct(rows: seq<Command>, device: string)
    ensures Ascending(Batch(rows, device))
  {
    IndicesElements(Mask(rows, device, Queued));
  }

  function MarkDelivered(rows: seq<Command>, picked: seq<nat>): seq<Command> {
    seq(|rows|, i requires 0 <= i < |rows| => if i in picked then rows[i].(status := Delivered) else rows[i])
  }

  /** The SyncML commands of the picked rows, in that order. */
  function Expand(rows: seq<Command>, picked: seq<nat>): seq<SyncML.OutCmd>
    requires forall k :: 0 <= k < |picked| ==> picked[k] < |rows|
  {
    if picked == [] then []
    else
      var n := |picked| - 1;
      Expand(rows, picked[..n]) + BuildSyncmlCmds(rows[picked[n]])
  }

  /** One session of a known device: rows and reply commands afterwards. */
  function Session(rows: seq<Command>, device: string, msg: SyncML.SyncMsg, infoMissing: bool, uuid: string)
    : (seq<Command>, seq<SyncML.OutCmd>)
  {
    var h := msg.header;
    var rows1 := AutoQuery(RowsAfter(rows, device, msg.commands), device, infoMissing, uuid);
    (MarkDelivered(rows1, Batch(rows1, device)),
     [StatusOk(h.msgId, "0", "SyncHdr", h.targetUri, h.sourceUri)] + Acks(h.msgId, msg.commands)
     + Expand(rows1, Batch(rows1, device)))
  }

  class ManagementServer {
    var rows: seq<Command>

    /**
     * omadm_sync after parse; `device` is None for an unknown source URI. The reply's message id is
     * int(msg_id) + 1: where int() rejects the text (`numericId` false) the request fails and its
     * transaction is rolled back.
     */
    method Sync(device: Option<string>, msg: SyncML.SyncMsg, infoMissing: bool, uuid: string, numericId: bool)
      returns (reply: Option<seq<SyncML.OutCmd>>)
      modifies this
      ensures !numericId ==> reply == None && rows == old(rows)
      ensures numericId && device.Some? ==>
        reply.Some? && (rows, reply.value) == Session(old(rows), device.value, msg, infoMissing, uuid)
      ensures numericId && device.None? ==>
        && rows == old(rows)
        && reply == Some([StatusOk(msg.header.msgId, "0", "SyncHdr", msg.header.targetUri, msg.header.sourceUri)]
             + Acks(msg.header.msgId, msg.commands))
    {
      var before := rows;
      var cmds := [StatusOk(msg.header.msgId, "0", "SyncHdr", msg.header.targetUri, msg.header.sourceUri)];
      var acks := ProcessMessage(device, msg);
      cmds := cmds + acks;
      if device.Some? {
        if infoMissing && !HasQuery(rows, device.value) {
          rows := rows + [MakeQuery(device.value, uuid)];
        }
        BatchDistinct(rows, device.value);
        cmds := Deliver(Batch(rows, device.value), cmds);
      }
      if !numericId {
        rows := before;
        return None;
      }
      reply := Some(cmds);
    }

    method ProcessMessage(device: Option<string>, msg: SyncML.SyncMsg) returns (acks: seq<SyncML.OutCmd>)
      modifies this
      ensures acks == Acks(msg.header.msgId, msg.commands)
      ensures rows == if device.Some? then RowsAfter(old(rows), device.value, msg.commands) else old(rows)
    {
      acks := [];
      for i := 0 to |msg.commands|
        invariant acks == Acks(msg.header.msgId, msg.commands[..i])
        invariant rows == if device.Some? then RowsAfter(old(rows), device.value, msg.commands[..i]) else old(rows)
      {
        var cmd := msg.commands[i];
        assert msg.commands[..i + 1][..i] == msg.commands[..i];
        if cmd.cmd == SyncML.Tag.Alert {
          acks := acks + [StatusOk(msg.header.msgId, cmd.cmdId, "Alert", "", "")];
        } else if cmd.cmd == SyncML.Tag.Status && device.Some? {
          rows := ProcessStatus(rows, device.value, cmd);
        }
      }
      assert msg.commands[..|msg.commands|] == msg.commands;
    }

    method Deliver(queued: seq<nat>, start: seq<SyncML.OutCmd>) returns (reply: seq<SyncML.OutCmd>)
      requires Ascending(queued) && forall k :: 0 <= k < |queued| ==> queued[k] < |rows|
      modifies this
      ensures rows == MarkDelivered(old(rows), queued)
      ensures reply == start + Expand(old(rows), queued)
    {
      ghost var was := rows;
      reply := start;
      for k := 0 to |queued|
        invariant rows == MarkDelivered(was, queued[..k])
        invariant reply == start + Expand(was, queued[..k])
      {
        MarkNext(was, queued, k);
        ExpandNext(was, start, queued, k);
        var c := rows[queued[k]];
        reply := reply + BuildSyncmlCmds(c);
        rows := rows[queued[k] := c.(status := Delivered)];
      }
      assert queued[..|queued|] == queued;
    }
  }

  /** One iteration of the delivery loop: the next row is still as it was, and is then marked. */
  lemma MarkNext(rows: seq<Command>, queued: seq<nat>, k: nat)
    requires k < |queued| && Ascending(queued) && forall j :: 0 <= j < |queued| ==> queued[j] < |rows|
    ensures MarkDelivered(rows, queued[..k])[queued[k]] == rows[queued[k]]
    ensures MarkDelivered(rows, queued[..k + 1])
         == MarkDelivered(rows, queued[..k])[queued[k] := rows[queued[k]].(status := Delivered)]
  {
    assert queued[k] !in queued[..k];
    var next := MarkDelivered(rows, queued[..k])[queued[k] := rows[queued[k]].(status := Delivered)];
    assert queued[..k + 1] == queued[..k] + [queued[k]];
    forall i | 0 <= i < |rows| ensures MarkDelivered(rows, queued[..k + 1])[i] == next[i] {
      assert i in queued[..k + 1] <==> i in queued[..k] || i == queued[k];
    }
  }

  lemma ExpandNext(rows: seq<Command>, start: seq<SyncML.OutCmd>, queued: seq<nat>, k: nat)
    requires k < |queued| && forall j :: 0 <= j < |queued| ==> queued[j] < |rows|
    ensures start + Expand(rows, queued[..k]) + BuildSyncmlCmds(rows[queued[k]])
         == start + Expand(rows, queued[..k + 1])
  {
    assert queued[..k + 1][..k] == queued[..k];
    Associate(start, Expand(rows, queued[..k]), BuildSyncmlCmds(rows[queued[k]]));
  }

  // ----- Status replies -----

  function ResolveAll(rows: seq<Command>, device: string, outcomes: seq<CommandStatus>): seq<Command>
    decreases outcomes
  {
    if outcomes == [] then rows else ResolveAll(ResolveOldest(rows, device, outcomes[0]), device, outcomes[1..])
  }

  function Outcomes(cmds: seq<SyncML.SyncCmd>): seq<CommandStatus> {
    if cmds == [] then []
    else
      var n := |cmds| - 1;
      Outcomes(cmds[..n]) + if cmds[n].cmd == SyncML.Tag.Status then [Outcome(cmds[n].data)] else []
  }

  lemma {:induction false} ResolveAllSnoc(
      rows: seq<Command>, device: string, outcomes: seq<CommandStatus>, last: CommandStatus)
    ensures ResolveAll(rows, device, outcomes + [last])
         == ResolveOldest(ResolveAll(rows, device, outcomes), device, last)
    decreases outcomes
  {
    if outcomes == [] {
      assert [last][1..] == [];
    } else {
      assert (outcomes + [last])[1..] == outcomes[1..] + [last];
      ResolveAllSnoc(ResolveOldest(rows, device, outcomes[0]), device, outcomes[1..], last);
    }
  }

  /** parse leaves a Status without items, so every reply takes the oldest-delivered branch. */
  lemma {:induction false} ParsedStatusesResolveOldest(rows: seq<Command>, device: string, els: seq<SyncML.Node>)
    ensures var cmds := SyncML.ParseCommands(els);
      RowsAfter(rows, device, cmds) == ResolveAll(rows, device, Outcomes(cmds))
  {
    SyncML.StatusHasNoItems(els);
    ItemlessStatuses(rows, device, SyncML.ParseCommands(els));
  }

  lemma {:induction false} ItemlessStatuses(rows: seq<Command>, device: string, cmds: seq<SyncML.SyncCmd>)
    requires forall c :: c in cmds && c.cmd == SyncML.Tag.Status ==> c.items == []
    ensures RowsAfter(rows, device, cmds) == ResolveAll(rows, device, Outcomes(cmds))
  {
    if cmds != [] {
      var n := |cmds| - 1;
      ItemlessStatuses(rows, device, cmds[..n]);
      if cmds[n].cmd == SyncML.Tag.Status {
        assert cmds[n] in cmds && UuidOf(cmds[n].items) == None;
        var before := RowsAfter(rows, device, cmds[..n]);
        assert RowsAfter(rows, device, cmds) == ResolveOldest(before, device, Outcome(cmds[n].data));
        assert Outcomes(cmds) == Outcomes(cmds[..n]) + [Outcome(cmds[n].data)];
        ResolveAllSnoc(rows, device, Outcomes(cmds[..n]), Outcome(cmds[n].data));
      } else {
        assert Outcomes(cmds) == Outcomes(cmds[..n]);
      }
    }
  }

  lemma ResolveOldestTakesFirst(rows: seq<Command>, device: string, outcome: CommandStatus)
    requires outcome != Delivered && Listed(rows, device, Delivered) != []
    ensures var all := Listed(rows, device, Delivered);
      Listed(ResolveOldest(rows, device, outcome), device, Delivered) == all[1..]
  {
    var mask := Mask(rows, device, Delivered);
    var all := Indices(mask);
    IndicesElements(mask);
    assert all[0] in all && all[..1] == [all[0]];
    ClearFirst(mask, 1);
    assert Mask(ResolveOldest(rows, device, outcome), device, Delivered) == Clear(mask, all[..1]);
  }

  /** The k-th of the listed rows has the k-th outcome, every other row is as before. */
  ghost predicate Resolved(rows: seq<Command>, after: seq<Command>, listed: seq<nat>, outcomes: seq<CommandStatus>) {
    var m := Min(|outcomes|, |listed|);
    && |after| == |rows|
    && (forall k :: 0 <= k < m ==> listed[k] < |rows| && after[listed[k]] == rows[listed[k]].(status := outcomes[k]))
    && (forall i :: 0 <= i < |rows| && i !in listed[..m] ==> after[i] == rows[i])
  }

  lemma ResolvedCons(rows: seq<Command>, after: seq<Command>, listed: seq<nat>, outcomes: seq<CommandStatus>)
    requires listed != [] && outcomes != [] && Ascending(listed)
    requires forall k :: 0 <= k < |listed| ==> listed[k] < |rows|
    requires Resolved(rows[listed[0] := rows[listed[0]].(status := outcomes[0])], after, listed[1..], outcomes[1..])
    ensures Resolved(rows, after, listed, outcomes)
  {
    var m := Min(|outcomes|, |listed|);
    var rest := listed[1..];
    assert listed[..m] == [listed[0]] + rest[..m - 1];
    assert listed[0] !in rest[..m - 1];
    forall k | 0 <= k < m ensures after[listed[k]] == rows[listed[k]].(status := outcomes[k]) {
      if k > 0 {
        assert listed[k] == rest[k - 1] && outcomes[k] == outcomes[1..][k - 1];
      }
    }
  }

  lemma StatusesStep(rows: seq<Command>, device: string, outcomes: seq<CommandStatus>)
    requires outcomes != [] && outcomes[0] != Delivered && Listed(rows, device, Delivered) != []
    requires var next := ResolveOldest(rows, device, outcomes[0]);
      Resolved(next, ResolveAll(next, device, outcomes[1..]), Listed(next, device, Delivered), outcomes[1..])
    ensures Resolved(rows, ResolveAll(rows, device, outcomes), Listed(rows, device, Delivered), outcomes)
  {
    var all := Listed(rows, device, Delivered);
    IndicesElements(Mask(rows, device, Delivered));
    assert forall k :: 0 <= k < |all| ==> all[k] in all;
    ResolveOldestTakesFirst(rows, device, outcomes[0]);
    ResolvedCons(rows, ResolveAll(rows, device, outcomes), all, outcomes);
  }

  /** m statuses resolve exactly the min(m, d) oldest of the d delivered commands, in order. */
  lemma {:induction false} StatusesResolveOldest(rows: seq<Command>, device: string, outcomes: seq<CommandStatus>)
    requires Delivered !in outcomes
    ensures var all := Listed(rows, device, Delivered); var after := ResolveAll(rows, device, outcomes);
      && Resolved(rows, after, all, outcomes)
      && Listed(after, device, Delivered) == all[Min(|outcomes|, |all|)..]
    decreases outcomes
  {
    var all := Listed(rows, device, Delivered);
    if outcomes == [] {
      assert all[0..] == all;
    } else if all == [] {
      StatusesResolveOldest(rows, device, outcomes[1..]);
    } else {
      StatusesResolveOldest(ResolveOldest(rows, device, outcomes[0]), device, outcomes[1..]);
      StatusesStep(rows, device, outcomes);
      ResolveOldestTakesFirst(rows, device, outcomes[0]);
      assert all[Min(|outcomes|, |all|)..] == all[1..][Min(|outcomes| - 1, |all| - 1)..];
    }
  }

  lemma {:induction false} OutcomesAreFinal(cmds: seq<SyncML.SyncCmd>)
    ensures Delivered !in Outcomes(cmds)
  {
    if cmds != [] {
      OutcomesAreFinal(cmds[..|cmds| - 1]);
    }
  }

  /** End to end: the k-th oldest delivered command gets the k-th Status of any parsed message, nothing else changes. */
  lemma ParsedMessageResolvesOldest(rows: seq<Command>, device: string, els: seq<SyncML.Node>)
    ensures var cmds := SyncML.ParseCommands(els);
      Resolved(rows, RowsAfter(rows, device, cmds), Listed(rows, device, Delivered), Outcomes(cmds))
  {
    var cmds := SyncML.ParseCommands(els);
    ParsedStatusesResolveOldest(rows, device, els);
    OutcomesAreFinal(cmds);
    StatusesResolveOldest(rows, device, Outcomes(cmds));
  }

  /** A delivered command's uuid survives tagging, building, parsing and splitting exactly when it holds no "?id=". */
  lemma UuidSurvivesIff(c: Command, i: nat, idx: nat)
    requires i < |BuildSyncmlCmds(c)|
    ensures UuidOf(SyncML.Decoded(idx, BuildSyncmlCmds(c)[i]).items) == Some(c.uuid) <==> !HasMark(c.uuid)
  {
    var uri := if c.kind == QUERY then c.nodes[i] else c.target;
    UuidRecoveredIff(uri, c.uuid);
    var items := SyncML.Decoded(idx, BuildSyncmlCmds(c)[i]).items;
    assert |items| == 1 && items[0].target == Some(Tagged(uri, c.uuid));
    assert UriOf(items[0]) == Tagged(uri, c.uuid);
  }

  // ----- Delivery -----

  /** A session delivers exactly the at most five oldest queued commands and leaves the rest queued. */
  lemma SessionDeliversOldest(rows: seq<Command>, device: string)
    ensures var all := Listed(rows, device, Queued); var m := Min(5, |all|);
      && Batch(rows, device) == all[..m] && Ascending(all)
      && Listed(MarkDelivered(rows, Batch(rows, device)), device, Queued) == all[m..]
  {
    var mask := Mask(rows, device, Queued);
    IndicesElements(mask);
    ClearFirst(mask, Min(BATCH, |Indices(mask)|));
    assert Mask(MarkDelivered(rows, Batch(rows, device)), device, Queued) == Clear(mask, Batch(rows, device));
  }

  // ----- Draining by whole sessions -----

  /** Which rows exist and what they are, apart from their status. */
  ghost predicate SameRows(a: seq<Command>, b: seq<Command>) {
    |a| == |b| && forall i :: 0 <= i < |a| ==> a[i] == b[i].(status := a[i].status)
  }

  lemma {:induction false} RowsAfterKeepsRows(rows: seq<Command>, device: string, cmds: seq<SyncML.SyncCmd>)
    ensures SameRows(RowsAfter(rows, device, cmds), rows)
  {
    if cmds != [] {
      RowsAfterKeepsRows(rows, device, cmds[..|cmds| - 1]);
    }
  }

  /** What a session of the device brings: its message, and whether the device row still lacks its details. */
  datatype Visit = Visit(msg: SyncML.SyncMsg, infoMissing: bool, uuid: string)

  /** The rows after the device's sessions, one after the other. */
  function Sessions(rows: seq<Command>, device: string, visits: seq<Visit>): seq<Command>
    decreases visits
  {
    if visits == [] then rows
    else
      var v := visits[0];
      Sessions(Session(rows, device, v.msg, v.infoMissing, v.uuid).0, device, visits[1..])
  }

  /** As parse leaves them: no Status carries items. */
  predicate AsParsed(msg: SyncML.SyncMsg) {
    forall c :: c in msg.commands && c.cmd == SyncML.Tag.Status ==> c.items == []
  }

  lemma ParsedIsAsParsed(root: SyncML.Node)
    ensures SyncML.ParseTree(root).Ok? ==> AsParsed(SyncML.ParseTree(root).value)
  {
    var body := SyncML.First(root.children, SyncML.Tag.SyncBody);
    if body.Some? {
      SyncML.StatusHasNoItems(body.value.children);
    }
  }

  lemma ResolvingKeepsQueued(rows: seq<Command>, device: string, outcome: CommandStatus)
    requires outcome != Queued
    ensures Mask(ResolveOldest(rows, device, outcome), device, Queued) == Mask(rows, device, Queued)
  {
    var delivered := Listed(rows, device, Delivered);
    IndicesElements(Mask(rows, device, Delivered));
    if delivered != [] {
      assert delivered[0] in delivered;
    }
  }

  /** The Status replies of a parsed message touch no queued row. */
  lemma {:induction false} RepliesKeepQueued(rows: seq<Command>, device: string, cmds: seq<SyncML.SyncCmd>)
    requires forall c :: c in cmds && c.cmd == SyncML.Tag.Status ==> c.items == []
    ensures Mask(RowsAfter(rows, device, cmds), device, Queued) == Mask(rows, device, Queued)
  {
    if cmds != [] {
      var n := |cmds| - 1;
      RepliesKeepQueued(rows, device, cmds[..n]);
      if cmds[n].cmd == SyncML.Tag.Status {
        assert cmds[n] in cmds && UuidOf(cmds[n].items) == None;
        ResolvingKeepsQueued(RowsAfter(rows, device, cmds[..n]), device, Outcome(cmds[n].data));
      }
    }
  }

  lemma SameRowsSameQuery(a: seq<Command>, b: seq<Command>, device: string)
    requires SameRows(a, b)
    ensures HasQuery(a, device) <==> HasQuery(b, device)
  {
    assert forall i :: 0 <= i < |a| ==> a[i].device == b[i].device && a[i].kind == b[i].kind;
  }

  /** The automatic query joins the end of the queue. */
  lemma QueryIsQueuedLast(rows: seq<Command>, device: string, infoMissing: bool, uuid: string)
    ensures var next := AutoQuery(rows, device, infoMissing, uuid); var due := infoMissing && !HasQuery(rows, device);
      && Listed(next, device, Queued) == Listed(rows, device, Queued) + (if due then [|rows|] else [])
      && (HasQuery(rows, device) || infoMissing ==> HasQuery(next, device))
  {
    var next := AutoQuery(rows, device, infoMissing, uuid);
    if infoMissing && !HasQuery(rows, device) {
      assert Mask(next, device, Queued)[..|rows|] == Mask(rows, device, Queued);
      assert next[|rows|].kind == QUERY;
    }
  }

  /** A whole session: queue, then query if due, less the at most five delivered. */
  lemma SessionTakesFive(rows: seq<Command>, device: string, v: Visit)
    requires AsParsed(v.msg)
    ensures var next := Session(rows, device, v.msg, v.infoMissing, v.uuid).0;
      var due := v.infoMissing && !HasQuery(rows, device);
      var all := Listed(rows, device, Queued) + if due then [|rows|] else [];
      && Listed(next, device, Queued) == all[Min(BATCH, |all|)..]
      && (HasQuery(rows, device) || v.infoMissing ==> HasQuery(next, device))
  {
    var rows0 := RowsAfter(rows, device, v.msg.commands);
    RepliesKeepQueued(rows, device, v.msg.commands);
    RowsAfterKeepsRows(rows, device, v.msg.commands);
    SameRowsSameQuery(rows0, rows, device);
    QueryIsQueuedLast(rows0, device, v.infoMissing, v.uuid);
    var rows1 := AutoQuery(rows0, device, v.infoMissing, v.uuid);
    SessionDeliversOldest(rows1, device);
    SameRowsSameQuery(MarkDelivered(rows1, Batch(rows1, device)), rows1, device);
  }

  lemma TakeFiveMore(all: seq<nat>, t: nat)
    requires t > 0
    ensures var rest := all[Min(BATCH, |all|)..];
      && rest[Min(BATCH * (t - 1), |rest|)..] == all[Min(BATCH * t, |all|)..]
      && (t - 1 >= CeilDiv(|rest|, BATCH) <==> t >= CeilDiv(|all|, BATCH))
  {
  }

  /**
   * n queued commands are drained by t sessions without new ones exactly when t >= ceil(n / 5),
   * whatever Status replies, Alerts and Results their messages bring.
   */
  lemma {:induction false} SessionsDrainByCeil(rows: seq<Command>, device: string, visits: seq<Visit>)
    requires forall v :: v in visits ==> AsParsed(v.msg) && (HasQuery(rows, device) || !v.infoMissing)
    ensures var all := Listed(rows, device, Queued); var left := Listed(Sessions(rows, device, visits), device, Queued);
      && left == all[Min(5 * |visits|, |all|)..]
      && (left == [] <==> |visits| >= CeilDiv(|all|, 5))
    decreases visits
  {
    var all := Listed(rows, device, Queued);
    if visits != [] {
      assert visits[0] in visits && forall x :: x in visits[1..] ==> x in visits;
      var next := Session(rows, device, visits[0].msg, visits[0].infoMissing, visits[0].uuid).0;
      SessionTakesFive(rows, device, visits[0]);
      assert all + [] == all;
      SessionsDrainByCeil(next, device, visits[1..]);
      TakeFiveMore(all, |visits|);
    }
  }

  /** If the first session queues the automatic query, it is n + 1 commands that are drained. */
  lemma SessionsDrainWithQuery(rows: seq<Command>, device: string, visits: seq<Visit>)
    requires visits != [] && visits[0].infoMissing && !HasQuery(rows, device)
    requires forall v :: v in visits ==> AsParsed(v.msg)
    ensures var n := |Listed(rows, device, Queued)|;
      Listed(Sessions(rows, device, visits), device, Queued) == [] <==> |visits| >= CeilDiv(n + 1, 5)
  {
    var v := visits[0];
    SessionTakesFive(rows, device, v);
    assert forall x :: x in visits[1..] ==> x in visits;
    SessionsDrainByCeil(Session(rows, device, v.msg, v.infoMissing, v.uuid).0, device, visits[1..]);
    TakeFiveMore(Listed(rows, device, Queued) + [|rows|], |visits|);
  }

  // ----- The automatic query -----

  datatype Event =
    | Queue(command: Command)   // an administrator's command
    | SyncMsg(device: string, msg: SyncML.SyncMsg, infoMissing: bool, uuid: string, numericId: bool)

  function Step(rows: seq<Command>, e: Event): seq<Command> {
    match e
    case Queue(c) => rows + [c.(status := Queued, auto := false)]
    case SyncMsg(d, msg, missing, uuid, numeric) => if numeric then Session(rows, d, msg, missing, uuid).0 else rows
  }

  function Run(rows: seq<Command>, events: seq<Event>): seq<Command> {
    if events == [] then rows else Step(Run(rows, events[..|events| - 1]), events[|events| - 1])
  }

  ghost predicate AtMostOneAuto(rows: seq<Command>) {
    && (forall i, j :: 0 <= i < j < |rows| && rows[i].auto && rows[j].auto ==> rows[i].device != rows[j].device)
    && (forall i :: 0 <= i < |rows| && rows[i].auto ==> rows[i].kind == QUERY)
  }

  lemma SameRowsKeepAuto(a: seq<Command>, b: seq<Command>)
    requires AtMostOneAuto(b) && SameRows(a, b)
    ensures AtMostOneAuto(a)
  {
    assert forall i :: 0 <= i < |a| ==> a[i].auto == b[i].auto && a[i].device == b[i].device && a[i].kind == b[i].kind;
  }

  lemma AutoQueryKeepsAuto(rows: seq<Command>, device: string, infoMissing: bool, uuid: string)
    requires AtMostOneAuto(rows)
    ensures AtMostOneAuto(AutoQuery(rows, device, infoMissing, uuid))
  {
  }

  /** In every run at most one DeviceQuery is ever queued automatically for a device. */
  lemma {:induction false} OneAutomaticQuery(rows: seq<Command>, events: seq<Event>)
    requires AtMostOneAuto(rows)
    ensures AtMostOneAuto(Run(rows, events))
  {
    if events != [] {
      var before, e := Run(rows, events[..|events| - 1]), events[|events| - 1];
      OneAutomaticQuery(rows, events[..|events| - 1]);
      if e.SyncMsg? && e.numericId {
        RowsAfterKeepsRows(before, e.device, e.msg.commands);
        SameRowsKeepAuto(RowsAfter(before, e.device, e.msg.commands), before);
        AutoQueryKeepsAuto(RowsAfter(before, e.device, e.msg.commands), e.device, e.infoMissing, e.uuid);
        var rows1 := AutoQuery(RowsAfter(before, e.device, e.msg.commands), e.device, e.infoMissing, e.uuid);
        SameRowsKeepAuto(MarkDelivered(rows1, Batch(rows1, e.device)), rows1);
      }
    }
  }
}
