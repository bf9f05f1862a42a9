/** The state of one receiver's media task and what each command does to it. */
module MediaState {
  import opened Common
  import opened MidPool

  type Pid = nat

  const MEDIA_BUFFER_CAP: nat := 500
  const PENDING_MAX_AGE: nat := 1000

  datatype Packet = Packet(source: Pid, isAudio: bool, isScreen: bool, wallclock: nat, tag: nat)

  datatype Slot = Slot(audioMid: Mid, videoMid: Mid, screenMid: Option<Mid>,
                       audioSeq: nat, videoSeq: nat, screenSeq: nat)

  /** A packet handed to a mid's outgoing stream, with its sequence number. */
  datatype Write = Write(mid: Mid, seqNo: nat, packet: Packet)

  datatype Route = Route(from: Pid, mid: Mid)

  /** The listed mids, the receiver's own mids and the sources' slots. */
  datatype Pool = Pool(allMids: Mids, ownAudio: Option<Mid>, ownVideo: Option<Mid>, ownScreen: Option<Mid>,
                       slots: map<Pid, Slot>)

  datatype State = State(
    pool: Pool,
    screenActive: bool, screenPending: bool,
    watermark: map<Mid, nat>,
    pending: map<Pid, seq<Packet>>,
    muted: set<Pid>,
    written: seq<Write>,
    routed: seq<Route>,
    requested: seq<u32>)

  /** The commands that change this state. An offer carries the mids of the accepted
      answer, the order in which the buffer yields its sources, and the time. */
  datatype Cmd =
    | Media(packet: Packet)
    | Offer(mids: Mids, order: seq<Pid>, now: nat)
    | MediaAdded(mids: Mids)
    | ScreenShareActive(active: bool)
    | PeerMuteChanged(pid: Pid, muted: bool)
    | PeerLeft(pid: Pid)
    | SourceScreenStopped(pid: Pid)
    | PeerCountChanged(count: nat)

  function Opt(m: Option<Mid>): set<Mid> {
    if m.Some? then {m.value} else {}
  }

  predicate Holds(s: Slot, m: Mid) {
    m == s.audioMid || m == s.videoMid || s.screenMid == Some(m)
  }

  ghost predicate InUse(slots: map<Pid, Slot>, m: Mid) {
    exists p :: p in slots && Holds(slots[p], m)
  }

  function SlotMids(s: Slot): (r: set<Mid>)
    ensures forall m :: m in r <==> Holds(s, m)
  {
    {s.audioMid, s.videoMid} + Opt(s.screenMid)
  }

  /** Every mid held by a slot. */
  function Used(slots: map<Pid, Slot>): (r: set<Mid>)
    ensures forall m :: m in r <==> InUse(slots, m)
  {
    var r := set p, m | p in slots && m in SlotMids(slots[p]) :: m;
    assert forall m :: m in r ==> exists p :: p in slots && m in SlotMids(slots[p]);
    assert forall p, m :: p in slots && m in SlotMids(slots[p]) ==> m in r;
    r
  }

  function Sources(slots: map<Pid, Slot>): set<Pid> {
    set p | p in slots
  }

  function Seed(watermark: map<Mid, nat>, m: Mid): nat {
    if m in watermark then watermark[m] else 0
  }

  function FreeAudio(pool: Pool): Option<Mid> {
    FirstFree(pool.allMids, Audio, Used(pool.slots) + Opt(pool.ownAudio))
  }

  function FreeVideo(pool: Pool): Option<Mid> {
    FirstFree(pool.allMids, Video, Used(pool.slots) + Opt(pool.ownVideo) + Opt(pool.ownScreen))
  }

  /** get_or_create_slot: the new pool, and whether the source has a slot. */
  function GetOrCreate(pool: Pool, watermark: map<Mid, nat>, source: Pid, isScreen: bool): (r: (Pool, bool))
    ensures r.1 ==> source in r.0.slots
  {
    if source in pool.slots then
      var slot := pool.slots[source];
      if isScreen && slot.screenMid.None? && FreeVideo(pool).Some?
      then (pool.(slots := pool.slots[source := slot.(screenMid := FreeVideo(pool))]), true)
      else (pool, true)
    else if FreeAudio(pool).Some? && FreeVideo(pool).Some? then
      var a, v := FreeAudio(pool).value, FreeVideo(pool).value;
      (pool.(slots := pool.slots[source := Slot(a, v, None, Seed(watermark, a), Seed(watermark, v), 0)]), true)
    else (pool, false)
  }

  /** Sends one packet of a source that has a slot and advances that stream's
      counter: the new slot and what was written. */
  function Emit(slot: Slot, p: Packet): (Slot, seq<Write>) {
    if p.isAudio then (slot.(audioSeq := slot.audioSeq + 1), [Write(slot.audioMid, slot.audioSeq, p)])
    else if p.isScreen then
      if slot.screenMid.None? then (slot, [])
      else (slot.(screenSeq := slot.screenSeq + 1), [Write(slot.screenMid.value, slot.screenSeq, p)])
    else (slot.(videoSeq := slot.videoSeq + 1), [Write(slot.videoMid, slot.videoSeq, p)])
  }

  /** write_forwarded_rtp */
  function Forward(st: State, p: Packet): State {
    var (pool, ok) := GetOrCreate(st.pool, st.watermark, p.source, p.isScreen);
    if ok then
      var (slot, writes) := Emit(pool.slots[p.source], p);
      st.(pool := pool.(slots := pool.slots[p.source := slot]), written := st.written + writes)
    else st.(pool := pool)
  }

  function ScreenOf(pool: Pool, source: Pid): Option<Mid> {
    if source in pool.slots then pool.slots[source].screenMid else None
  }

  function Buffer(pending: map<Pid, seq<Packet>>, p: Packet): map<Pid, seq<Packet>> {
    var buf := if p.source in pending then pending[p.source] else [];
    pending[p.source := if |buf| < MEDIA_BUFFER_CAP then buf + [p] else buf]
  }

  /** Tells the receiver which mid carries a screen that just gained one. */
  function Announcement(hadScreen: bool, pool: Pool, source: Pid): seq<Route> {
    if !hadScreen && ScreenOf(pool, source).Some? then [Route(source, ScreenOf(pool, source).value)] else []
  }

  /** Forwards a packet of a source that has a slot. */
  function Deliver(st: State, p: Packet, hadScreen: bool): State {
    var st' := Forward(st, p);
    st'.(routed := st'.routed + Announcement(hadScreen, st'.pool, p.source))
  }

  /** A packet's source keeps its slot or gets one, if it can. */
  function Acquire(pool: Pool, w: map<Mid, nat>, p: Packet): (Pool, bool) {
    if p.source in pool.slots then (pool, true) else GetOrCreate(pool, w, p.source, p.isScreen)
  }

  function OnMedia(st: State, p: Packet): State {
    if p.isAudio && p.source in st.muted then st
    else
      var (pool, hasSlot) := Acquire(st.pool, st.watermark, p);
      if !hasSlot then st.(pool := pool, pending := Buffer(st.pending, p))
      else Deliver(st.(pool := pool), p, ScreenOf(st.pool, p.source).Some?)
  }

  /** A new mid is taken as an own mid where one is missing. Only offers provide the
      own screen mid, when a screen share waits for one. */
  function Assign(pool: Pool, m: Mid, kind: Kind, wantScreen: bool): Pool {
    if kind == Audio && pool.ownAudio.None? then pool.(ownAudio := Some(m))
    else if kind == Video && pool.ownVideo.None? then pool.(ownVideo := Some(m))
    else if kind == Video && wantScreen && pool.ownScreen.None? then pool.(ownScreen := Some(m))
    else pool
  }

  /** One announced mid: listed and assigned unless it already is listed. */
  function Announce(pool: Pool, m: Mid, kind: Kind, wantScreen: bool): Pool {
    if Listed(pool.allMids, m) then pool
    else Assign(pool.(allMids := pool.allMids + [(m, kind)]), m, kind, wantScreen)
  }

  function AnnounceAll(pool: Pool, mids: Mids, wantScreen: bool): Pool
    decreases |mids|
  {
    if mids == [] then pool
    else AnnounceAll(Announce(pool, mids[0].0, mids[0].1, wantScreen), mids[1..], wantScreen)
  }

  /** A renegotiation offer up to the flush of the buffers. A screen share stops
      waiting once the offer gave it a mid. */
  function Renegotiate(st: State, mids: Mids): State {
    var pool := AnnounceAll(st.pool, mids, st.screenPending || st.screenActive);
    st.(pool := pool,
        screenPending := st.screenPending && (st.pool.ownScreen.Some? || pool.ownScreen.None?))
  }

  predicate Stale(p: Packet, now: nat) {
    now - p.wallclock > PENDING_MAX_AGE
  }

  function ForwardFresh(st: State, packets: seq<Packet>, now: nat): State
    decreases |packets|
  {
    if packets == [] then st
    else ForwardFresh(if Stale(packets[0], now) then st else Forward(st, packets[0]), packets[1..], now)
  }

  /** Flushes the buffer of one source. */
  function FlushOne(st: State, source: Pid, now: nat): State {
    if source in st.pending
    then ForwardFresh(st.(pending := st.pending - {source}), st.pending[source], now)
    else st
  }

  /** Flushes the buffers of the given sources in order. */
  function Flush(st: State, order: seq<Pid>, now: nat): State
    decreases |order|
  {
    if order == [] then st else Flush(FlushOne(st, order[0], now), order[1..], now)
  }

  function SaveWatermarks(w: map<Mid, nat>, s: Slot): map<Mid, nat> {
    var w' := w[s.audioMid := s.audioSeq][s.videoMid := s.videoSeq];
    if s.screenMid.Some? then w'[s.screenMid.value := s.screenSeq] else w'
  }

  function OnPeerLeft(st: State, pid: Pid): State {
    var st1 :=
      if pid in st.pool.slots
      then st.(watermark := SaveWatermarks(st.watermark, st.pool.slots[pid]),
               pool := st.pool.(slots := st.pool.slots - {pid}))
      else st;
    st1.(pending := st1.pending - {pid}, muted := st1.muted - {pid})
  }

  function StopScreen(pool: Pool, pid: Pid): Pool {
    if pid in pool.slots then pool.(slots := pool.slots[pid := pool.slots[pid].(screenMid := None)]) else pool
  }

  /** needs_renegotiation: how many audio and video pairs are missing, if any. */
  function NeedsRenegotiation(mids: Mids, ownCount: nat, slots: map<Pid, Slot>, remotePeers: nat): Option<u32> {
    if remotePeers == 0 then None
    else
      var freeAudio := Minus(|Candidates(mids, Audio, Used(slots))|, if ownCount < 1 then ownCount else 1);
      var freeVideo := Minus(|Candidates(mids, Video, Used(slots))|, Minus(ownCount, 1));
      Missing(Minus(remotePeers, |Sources(slots)|), freeAudio, freeVideo)
  }

  /** How many of the sources without a slot find no free pair, as a 32-bit number. */
  function Missing(without: nat, freeAudio: nat, freeVideo: nat): (r: Option<u32>)
    ensures r.None? <==> without <= freeAudio && without <= freeVideo
  {
    var available := if freeAudio < freeVideo then freeAudio else freeVideo;
    if without > available then Some((without - available) % 0x1_0000_0000) else None
  }

  /** Subtraction that stops at zero. */
  function Minus(a: nat, b: nat): nat {
    if a < b then 0 else a - b
  }

  function OwnCount(pool: Pool): nat {
    2 + (if pool.ownScreen.Some? then 1 else 0)
  }

  function Step(st: State, cmd: Cmd): State {
    match cmd
    case Media(p) => OnMedia(st, p)
    case Offer(mids, order, now) => Flush(Renegotiate(st, mids), order, now)
    case MediaAdded(mids) => st.(pool := AnnounceAll(st.pool, mids, false))
    case ScreenShareActive(active) =>
      if active then st.(screenActive := true, screenPending := st.screenPending || st.pool.ownScreen.None?)
      else st.(screenActive := false, screenPending := false, pool := st.pool.(ownScreen := None))
    case PeerMuteChanged(pid, muted) => st.(muted := if muted then st.muted + {pid} else st.muted - {pid})
    case PeerLeft(pid) => OnPeerLeft(st, pid)
    case SourceScreenStopped(pid) => st.(pool := StopScreen(st.pool, pid))
    case PeerCountChanged(count) => st.(requested := st.requested + Requests(st.pool, count))
  }

  /** The renegotiation request sent when the peer count changes, if any. */
  function Requests(pool: Pool, count: nat): seq<u32> {
    match NeedsRenegotiation(pool.allMids, OwnCount(pool), pool.slots, count)
    case None => []
    case Some(deficit) => [deficit]
  }

  /** The initial mids are listed without a duplicate check. */
  function InitialPool(mids: Mids): Pool {
    if mids == [] then Pool([], None, None, None, map[])
    else
      var n := |mids| - 1;
      var pool := InitialPool(mids[..n]);
      var (m, kind) := mids[n];
      pool.(allMids := pool.allMids + [(m, kind)],
            ownAudio := if kind == Audio && pool.ownAudio.None? then Some(m) else pool.ownAudio,
            ownVideo := if kind == Video && pool.ownVideo.None? then Some(m) else pool.ownVideo)
  }

  function Initial(mids: Mids): State {
    State(InitialPool(mids), false, false, map[], map[], {}, [], [], [])
  }

  function Run(mids: Mids, cmds: seq<Cmd>): State {
    if cmds == [] then Initial(mids)
    else Step(Run(mids, cmds[..|cmds| - 1]), cmds[|cmds| - 1])
  }
}
