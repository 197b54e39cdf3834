/** The Joybus (PIF) polling protocol as the netplay interceptor sees it, and
    the pure specification of one interceptor call: the once-per-frame
    exchange trigger, the sync cache it fills, and the reply-buffer rewrite
    applied to every channel on every poll (Emulation.cpp, lines 34-197). */
module Joybus {

  /** A byte of PIF RAM. */
  type byte = b: int | 0 <= b < 0x100

  /** An unsigned 32-bit word (uint32_t). */
  type u32 = w: int | 0 <= w < 0x1_0000_0000

  /** The PIF has exactly six channels (pif.channels[6]). */
  const PIF_CHANNELS_COUNT: nat := 6

  /** Kaillera synchronises at most eight players. */
  const MAX_PLAYERS: nat := 8

  // Joybus command bytes
  const JCMD_STATUS: byte := 0x00
  const JCMD_CONTROLLER_READ: byte := 0x01
  const JCMD_PAK_READ: byte := 0x02
  const JCMD_PAK_WRITE: byte := 0x03
  const JCMD_EEPROM_READ: byte := 0x04
  const JCMD_EEPROM_WRITE: byte := 0x05
  const JCMD_RESET: byte := 0xff

  /** Standard controller type (absolute counters, controller-port device). */
  const JOY_TYPE: int := 0x0500

  /** Byte written where an absent controller pak would answer. */
  const PAK_ABSENT: byte := 255

  /** Offset of the byte after the 32 data bytes of a pak-read reply. */
  const PAK_READ_TAIL: nat := 32

  datatype Option<T> = None | Some(value: T)

  /** One PIF channel: `command` is tx_buf[0] when the tx pointer is set,
      `status` is the byte *rx when the rx pointer is set, and `reply` the
      bytes at rx_buf when that pointer is set. */
  datatype Channel = Channel(command: Option<byte>, status: Option<byte>, reply: Option<seq<byte>>)

  /** The number of reply bytes the interceptor touches for `command`. */
  function ReplySize(command: byte): nat
  {
    if command == JCMD_STATUS || command == JCMD_RESET then 3
    else if command == JCMD_CONTROLLER_READ then 4
    else if command == JCMD_PAK_READ then PAK_READ_TAIL + 1
    else if command == JCMD_PAK_WRITE then 1
    else 0
  }

  /** A reply buffer is large enough for the reply its command expects. */
  predicate WellSized(c: Channel)
  {
    c.command.Some? && c.reply.Some? ==> |c.reply.value| >= ReplySize(c.command.value)
  }

  predicate AllWellSized(chs: seq<Channel>)
  {
    forall i :: 0 <= i < |chs| ==> WellSized(chs[i])
  }

  ////////////////////////////////////////////////////////////////////////
  // Big-endian word codec (lines 127 and 179-182)

  function DecodeBigEndian(b: seq<byte>): u32
    requires |b| >= 4
  {
    (b[0] as int) * 0x100_0000 + (b[1] as int) * 0x1_0000 + (b[2] as int) * 0x100 + b[3]
  }

  function EncodeBigEndian(w: u32): (b: seq<byte>)
    ensures |b| == 4
  {
    [(w / 0x100_0000) % 0x100, (w / 0x1_0000) % 0x100, (w / 0x100) % 0x100, w % 0x100]
  }

  /** Writing a cached word back and reading it again yields the same word. */
  lemma DecodeEncode(w: u32)
    ensures DecodeBigEndian(EncodeBigEndian(w)) == w
  {
    var q1 := w / 0x100;
    var q2 := q1 / 0x100;
    var q3 := q2 / 0x100;
    assert w / 0x1_0000 == q2;
    assert w / 0x100_0000 == q3;
    assert q3 < 0x100;
    assert w == q1 * 0x100 + w % 0x100;
    assert q1 == q2 * 0x100 + q1 % 0x100;
    assert q2 == q3 * 0x100 + q2 % 0x100;
  }

  /** Reading four reply bytes as a word and writing the word back restores them. */
  lemma EncodeDecode(b: seq<byte>)
    requires |b| == 4
    ensures EncodeBigEndian(DecodeBigEndian(b)) == b
  {
    var w := DecodeBigEndian(b);
    var b0, b1, b2, b3: int := b[0], b[1], b[2], b[3];
    assert w / 0x100 == b0 * 0x1_0000 + b1 * 0x100 + b2;
    assert w / 0x1_0000 == b0 * 0x100 + b1;
    assert w / 0x100_0000 == b0;
    assert EncodeBigEndian(w) == [b0, b1, b2, b3];
  }

  /** CONTROLLER_READ reply: the word's four bytes over rx_buf[0..4). */
  function WriteWord(buf: seq<byte>, w: u32): (r: seq<byte>)
    requires |buf| >= 4
    ensures |r| == |buf| && r[4..] == buf[4..]
    ensures DecodeBigEndian(r) == w
  {
    var e := EncodeBigEndian(w);
    DecodeEncode(w);
    buf[0 := e[0]][1 := e[1]][2 := e[2]][3 := e[3]]
  }

  /** STATUS/RESET reply: the controller type low byte first, then "no pak". */
  function WriteDescriptor(buf: seq<byte>): (r: seq<byte>)
    requires |buf| >= 3
    ensures |r| == |buf| && r[..3] == [0x00, 0x05, 0x00] && r[3..] == buf[3..]
  {
    buf[0 := JOY_TYPE % 0x100][1 := (JOY_TYPE / 0x100) % 0x100][2 := 0]
  }

  /** `*rx &= ~0xC0` on a byte, written arithmetically: both error bits
      (bits 6 and 7) are clear afterwards, and the byte changed only by the
      weights of those two bits, so bits 0-5 are kept. */
  function ClearErrorBits(s: byte): (r: byte)
    ensures r < 0x40
    ensures s - r == 0 || s - r == 0x40 || s - r == 0x80 || s - r == 0xC0
  {
    s % 0x40
  }

  ////////////////////////////////////////////////////////////////////////
  // Reply rewrite (lines 158-195)

  /** The rewrite of one channel with its cached word: nothing unless both
      the tx and rx pointers are set; otherwise the error bits are cleared
      and the reply rewritten according to the command. */
  function RewriteChannel(c: Channel, word: u32): Channel
    requires WellSized(c)
  {
    if c.command.None? || c.status.None? then c
    else
      var cleared := c.(status := Some(ClearErrorBits(c.status.value)));
      var cmd := c.command.value;
      match c.reply
      case None => cleared
      case Some(buf) =>
        if cmd == JCMD_STATUS || cmd == JCMD_RESET then cleared.(reply := Some(WriteDescriptor(buf)))
        else if cmd == JCMD_CONTROLLER_READ then cleared.(reply := Some(WriteWord(buf, word)))
        else if cmd == JCMD_PAK_READ then cleared.(reply := Some(buf[PAK_READ_TAIL := PAK_ABSENT]))
        else if cmd == JCMD_PAK_WRITE then cleared.(reply := Some(buf[0 := PAK_ABSENT]))
        else cleared
  }

  /** What the rewrite does to each byte, command by command. */
  lemma RewriteChannelEffect(c: Channel, word: u32)
    requires WellSized(c)
    ensures var r := RewriteChannel(c, word);
      && r.command == c.command
      && r.reply.Some? == c.reply.Some?
      && (c.reply.Some? ==> |r.reply.value| == |c.reply.value|)
      && WellSized(r)
      && (c.command.None? || c.status.None? ==> r == c)
      && (c.command.Some? && c.status.Some? ==>
            && r.status == Some(ClearErrorBits(c.status.value))
            && (c.reply.Some? ==>
                  var cmd, old_, new_ := c.command.value, c.reply.value, r.reply.value;
                  && (cmd == JCMD_STATUS || cmd == JCMD_RESET ==>
                        new_[..3] == [0x00, 0x05, 0x00] && new_[3..] == old_[3..])
                  && (cmd == JCMD_CONTROLLER_READ ==>
                        DecodeBigEndian(new_) == word && new_[..4] == EncodeBigEndian(word) && new_[4..] == old_[4..])
                  && (cmd == JCMD_PAK_READ ==> new_ == old_[PAK_READ_TAIL := PAK_ABSENT])
                  && (cmd == JCMD_PAK_WRITE ==> new_ == old_[0 := PAK_ABSENT])
                  && (cmd !in {JCMD_STATUS, JCMD_RESET, JCMD_CONTROLLER_READ, JCMD_PAK_READ, JCMD_PAK_WRITE} ==>
                        new_ == old_)))
  {
    if c.command.Some? && c.status.Some? && c.reply.Some? && c.command.value == JCMD_CONTROLLER_READ {
      var new_ := RewriteChannel(c, word).reply.value;
      EncodeDecode(new_[..4]);
      assert DecodeBigEndian(new_[..4]) == DecodeBigEndian(new_);
    }
  }

  /** Rewriting an already rewritten channel with the same word changes nothing. */
  lemma RewriteChannelIdempotent(c: Channel, word: u32)
    requires WellSized(c)
    ensures WellSized(RewriteChannel(c, word))
    ensures RewriteChannel(RewriteChannel(c, word), word) == RewriteChannel(c, word)
  {
    RewriteChannelEffect(c, word);
    var r := RewriteChannel(c, word);
    if c.command.Some? && c.status.Some? && c.reply.Some? {
      var cmd, b := c.command.value, r.reply.value;
      if cmd == JCMD_STATUS || cmd == JCMD_RESET {
        assert WriteDescriptor(b) == b;
      } else if cmd == JCMD_CONTROLLER_READ {
        assert b[..4] == EncodeBigEndian(word);
        assert WriteWord(b, word) == b;
      } else if cmd == JCMD_PAK_READ {
        assert b[PAK_READ_TAIL := PAK_ABSENT] == b;
      } else if cmd == JCMD_PAK_WRITE {
        assert b[0 := PAK_ABSENT] == b;
      }
    }
  }

  function Min(a: int, b: int): int { if a < b then a else b }

  /** The number of channels the loop of line 159 visits: starting at 0,
      it runs while `i < count && i < limit`. Every index below n passes
      that test (n - 1 is below both count and limit) and n itself fails
      it, so n is exactly where the loop stops. */
  function Bound(count: int, limit: nat): (n: nat)
    ensures n <= limit && (count > 0 ==> n <= count)
    ensures n > 0 ==> n - 1 < count && n - 1 < limit
    ensures !(n < count && n < limit)
  {
    if count <= 0 then 0 else Min(count, limit)
  }

  /** The channels after the rewrite loop with cap `limit` (the source uses
      MAX_PLAYERS). Only defined when every visited index is a channel. */
  function Rewritten(chs: seq<Channel>, count: int, words: seq<u32>, limit: nat): seq<Channel>
    requires AllWellSized(chs) && |words| == MAX_PLAYERS && limit <= MAX_PLAYERS
    requires Bound(count, limit) <= |chs|
  {
    seq(|chs|, i requires 0 <= i < |chs| =>
      if i < Bound(count, limit) then RewriteChannel(chs[i], words[i]) else chs[i])
  }

  /** The rewrite keeps every command, touches only the visited channels,
      and rewrites each of those with its own cached word. */
  lemma RewrittenFrame(chs: seq<Channel>, count: int, words: seq<u32>, limit: nat)
    requires AllWellSized(chs) && |words| == MAX_PLAYERS && limit <= MAX_PLAYERS
    requires Bound(count, limit) <= |chs|
    ensures var r := Rewritten(chs, count, words, limit);
      && |r| == |chs| && AllWellSized(r)
      && (forall i :: 0 <= i < |r| ==> r[i].command == chs[i].command && r[i].reply.Some? == chs[i].reply.Some?)
      && (forall i :: Bound(count, limit) <= i < |r| ==> r[i] == chs[i])
      && (count <= 0 ==> r == chs)
  {
    var r := Rewritten(chs, count, words, limit);
    forall i | 0 <= i < |r|
      ensures WellSized(r[i]) && r[i].command == chs[i].command && r[i].reply.Some? == chs[i].reply.Some?
    {
      if i < Bound(count, limit) { RewriteChannelEffect(chs[i], words[i]); }
    }
  }

  /** Rewriting twice with the same cache gives byte-identical channels. */
  lemma {:induction false} RewrittenIdempotent(chs: seq<Channel>, count: int, words: seq<u32>, limit: nat)
    requires AllWellSized(chs) && |words| == MAX_PLAYERS && limit <= MAX_PLAYERS
    requires Bound(count, limit) <= |chs|
    ensures AllWellSized(Rewritten(chs, count, words, limit))
    ensures Rewritten(Rewritten(chs, count, words, limit), count, words, limit) == Rewritten(chs, count, words, limit)
  {
    RewrittenFrame(chs, count, words, limit);
    var r := Rewritten(chs, count, words, limit);
    var rr := Rewritten(r, count, words, limit);
    forall i | 0 <= i < |chs| ensures rr[i] == r[i] {
      if i < Bound(count, limit) { RewriteChannelIdempotent(chs[i], words[i]); }
    }
  }

  ////////////////////////////////////////////////////////////////////////
  // Exchange and sync cache (lines 98-154)

  /** What the Kaillera exchange gives back: its return value (bytes
      received, or <= 0 on failure) and the words it wrote over the start
      of the eight-word buffer it was handed. */
  datatype Reply = Reply(ret: int, filled: seq<u32>)

  /** The interceptor's per-frame state: s_SyncedThisFrame,
      s_CachedNumReceived, s_CachedSyncBuffer, and whether the Kaillera
      game has been marked inactive. */
  datatype SyncCache = SyncCache(synced: bool, count: int, words: seq<u32>, inactive: bool)

  /** Kaillera is initialised and reports this player number. */
  datatype Context = Context(kailleraInit: bool, playerNumber: int)

  function Zeros(): (z: seq<u32>)
    ensures |z| == MAX_PLAYERS && forall i :: 0 <= i < MAX_PLAYERS ==> z[i] == 0
  {
    seq(MAX_PLAYERS, _ => 0)
  }

  /** sync_buffer after the exchange: seeded with the local input in slot 0
      and zeros elsewhere, then overwritten by the words the exchange wrote
      (at most eight). */
  function SyncBuffer(local: u32, filled: seq<u32>): (r: seq<u32>)
    ensures |r| == MAX_PLAYERS
  {
    seq(MAX_PLAYERS, i requires 0 <= i < MAX_PLAYERS =>
      if i < |filled| then filled[i] else if i == 0 then local else 0)
  }

  /** The callback does anything at all: Kaillera initialised and the
      player number within 1..8 (lines 101-110). */
  predicate Active(ctx: Context)
  {
    ctx.kailleraInit && 1 <= ctx.playerNumber <= MAX_PLAYERS
  }

  /** Channel 0 carries a controller read with a reply buffer (lines 114-116). */
  predicate IsControllerRead(c0: Channel)
  {
    c0.command == Some(JCMD_CONTROLLER_READ) && c0.reply.Some?
  }

  /** The poll is this frame's synchronisation point. */
  predicate Triggers(c: SyncCache, c0: Channel)
  {
    IsControllerRead(c0) && !c.synced
  }

  /** The local input: channel 0's four reply bytes as one big-endian word. */
  function LocalInput(c0: Channel): u32
    requires IsControllerRead(c0) && WellSized(c0)
  {
    DecodeBigEndian(c0.reply.value)
  }

  /** The cache after an exchange that returned `r`. */
  function AfterExchange(c: SyncCache, local: u32, r: Reply): SyncCache
  {
    if r.ret <= 0 then SyncCache(true, 0, Zeros(), true)
    else SyncCache(true, r.ret / 4, SyncBuffer(local, r.filled), c.inactive)
  }

  /** The cache after the trigger test of one poll. */
  function Synchronize(c: SyncCache, c0: Channel, exchange: u32 -> Reply): (r: SyncCache)
    requires WellSized(c0) && |c.words| == MAX_PLAYERS
    ensures |r.words| == MAX_PLAYERS
  {
    if Triggers(c, c0) then AfterExchange(c, LocalInput(c0), exchange(LocalInput(c0))) else c
  }

  /** Success and failure of the exchange, as the cache records them. */
  lemma SynchronizeOutcome(c: SyncCache, c0: Channel, exchange: u32 -> Reply)
    requires WellSized(c0) && |c.words| == MAX_PLAYERS
    ensures var r := Synchronize(c, c0, exchange);
      && (!Triggers(c, c0) ==> r == c)
      && (Triggers(c, c0) ==>
            var local := LocalInput(c0);
            var reply := exchange(local);
            && r.synced
            && (reply.ret <= 0 ==> r.count == 0 && r.words == Zeros() && r.inactive)
            && (reply.ret > 0 ==>
                  && r.count == reply.ret / 4 && r.inactive == c.inactive
                  && (forall i :: 0 <= i < MAX_PLAYERS && i < |reply.filled| ==> r.words[i] == reply.filled[i])
                  && (reply.filled == [] ==> r.words[0] == local)
                  && (forall i :: |reply.filled| <= i < MAX_PLAYERS && i != 0 ==> r.words[i] == 0)))
  {
  }

  /** One whole call of the interceptor, with loop cap `limit`: inactive
      contexts change nothing, a failed exchange returns before the rewrite,
      otherwise the channels are rewritten from the (possibly new) cache. */
  datatype PollOutcome = PollOutcome(cache: SyncCache, channels: seq<Channel>)

  predicate PollFits(c: SyncCache, chs: seq<Channel>, ctx: Context, exchange: u32 -> Reply, limit: nat)
  {
    && |chs| == PIF_CHANNELS_COUNT && AllWellSized(chs)
    && |c.words| == MAX_PLAYERS && limit <= MAX_PLAYERS
    && (Active(ctx) ==> Bound(Synchronize(c, chs[0], exchange).count, limit) <= PIF_CHANNELS_COUNT)
  }

  function Poll(c: SyncCache, chs: seq<Channel>, ctx: Context, exchange: u32 -> Reply, limit: nat): PollOutcome
    requires PollFits(c, chs, ctx, exchange, limit)
  {
    if !Active(ctx) then PollOutcome(c, chs)
    else
      var c' := Synchronize(c, chs[0], exchange);
      if Triggers(c, chs[0]) && exchange(LocalInput(chs[0])).ret <= 0 then PollOutcome(c', chs)
      else if c'.count > 0 then PollOutcome(c', Rewritten(chs, c'.count, c'.words, limit))
      else PollOutcome(c', chs)
  }

  /** A second poll in the same frame, on the buffers the first one left,
      triggers nothing and leaves cache and buffers byte-identical. */
  lemma SecondPollSameFrame(c: SyncCache, chs: seq<Channel>, ctx: Context, exchange: u32 -> Reply, limit: nat)
    requires PollFits(c, chs, ctx, exchange, limit)
    ensures var o := Poll(c, chs, ctx, exchange, limit);
      && PollFits(o.cache, o.channels, ctx, exchange, limit)
      && !(Active(ctx) && Triggers(o.cache, o.channels[0]))
      && Poll(o.cache, o.channels, ctx, exchange, limit) == o
  {
    var o := Poll(c, chs, ctx, exchange, limit);
    if Active(ctx) {
      var c' := Synchronize(c, chs[0], exchange);
      RewrittenFrame(chs, c'.count, c'.words, limit);
      if c'.count > 0 {
        RewrittenIdempotent(chs, c'.count, c'.words, limit);
      }
      assert IsControllerRead(o.channels[0]) == IsControllerRead(chs[0]);
      assert Synchronize(o.cache, o.channels[0], exchange) == o.cache;
    }
  }

  ////////////////////////////////////////////////////////////////////////
  // Exactly one exchange per frame

  /** The number of exchanges made by a frame's polls, given the channel 0
      view of each poll in order. */
  function FrameExchanges(c: SyncCache, polls: seq<Channel>, ctx: Context, exchange: u32 -> Reply): nat
    requires AllWellSized(polls) && |c.words| == MAX_PLAYERS
    decreases |polls|
  {
    if polls == [] then 0
    else
      var n := if Active(ctx) && Triggers(c, polls[0]) then 1 else 0;
      var c' := if Active(ctx) then Synchronize(c, polls[0], exchange) else c;
      n + FrameExchanges(c', polls[1..], ctx, exchange)
  }

  lemma {:induction false} NoExchangeOnceSynced(c: SyncCache, polls: seq<Channel>, ctx: Context, exchange: u32 -> Reply)
    requires AllWellSized(polls) && |c.words| == MAX_PLAYERS && c.synced
    ensures FrameExchanges(c, polls, ctx, exchange) == 0
    decreases |polls|
  {
    if polls != [] {
      NoExchangeOnceSynced(c, polls[1..], ctx, exchange);
    }
  }

  /** Starting from a fresh frame, the polls exchange exactly once if the
      callback is active and some poll is a channel-0 controller read, and
      never otherwise (STATUS, RESET and pak commands never trigger). */
  lemma {:induction false} ExactlyOncePerFrame(c: SyncCache, polls: seq<Channel>, ctx: Context, exchange: u32 -> Reply)
    requires AllWellSized(polls) && |c.words| == MAX_PLAYERS && !c.synced
    ensures FrameExchanges(c, polls, ctx, exchange) ==
      if Active(ctx) && exists k :: 0 <= k < |polls| && IsControllerRead(polls[k]) then 1 else 0
    decreases |polls|
  {
    if polls != [] {
      var c' := if Active(ctx) then Synchronize(c, polls[0], exchange) else c;
      if Active(ctx) && IsControllerRead(polls[0]) {
        NoExchangeOnceSynced(c', polls[1..], ctx, exchange);
      } else {
        ExactlyOncePerFrame(c', polls[1..], ctx, exchange);
        if Active(ctx) && exists k :: 0 <= k < |polls| && IsControllerRead(polls[k]) {
          var k :| 0 <= k < |polls| && IsControllerRead(polls[k]);
          assert IsControllerRead(polls[1..][k - 1]);
        }
        if Active(ctx) && exists k :: 0 <= k < |polls[1..]| && IsControllerRead(polls[1..][k]) {
          var k :| 0 <= k < |polls[1..]| && IsControllerRead(polls[1..][k]);
          assert IsControllerRead(polls[k + 1]);
        }
      }
    }
  }

  ////////////////////////////////////////////////////////////////////////
  // The loop cap of line 159 against the six channels of line 48

  /** As written the rewrite visits min(count, MAX_PLAYERS) channels. An
      exchange reporting 32 bytes (eight players) gives count 8, so the
      loop would read pif.channels[6] and pif.channels[7], past the end of
      the six-entry array. */
  lemma AsWrittenRewriteOverrunsPif(local: u32)
    ensures var c := AfterExchange(SyncCache(false, 0, Zeros(), false), local, Reply(32, []));
      c.count == 8 && Bound(c.count, MAX_PLAYERS) == 8 > PIF_CHANNELS_COUNT
  {
  }

  /** With the channel count as the cap, every cache the exchange can leave
      passes the bound check, whatever the exchange reports. */
  lemma BoundedRewriteFits(c: SyncCache, chs: seq<Channel>, ctx: Context, exchange: u32 -> Reply)
    requires |chs| == PIF_CHANNELS_COUNT && AllWellSized(chs) && |c.words| == MAX_PLAYERS
    ensures PollFits(c, chs, ctx, exchange, PIF_CHANNELS_COUNT)
  {
  }
}
