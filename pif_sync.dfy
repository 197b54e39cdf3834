/** The netplay frame clock and Joybus interceptor of Emulation.cpp as
    state: the static variables s_CurrentFrame, s_SyncedThisFrame,
    s_CachedNumReceived and s_CachedSyncBuffer become the fields of one
    object, and FrameCallback / KailleraPifSyncCallback its methods. Each
    method is proved against the pure specification in module Joybus. */
module PifSync {
  import opened Joybus

  /** `int s_CurrentFrame = frameIndex` for an `unsigned int`: two's
      complement wrap-around above 2^31 - 1. */
  function AsInt32(u: int): (r: int)
    requires 0 <= u < 0x1_0000_0000
    ensures -0x8000_0000 <= r < 0x8000_0000
    ensures (r - u) % 0x1_0000_0000 == 0
  {
    if u < 0x8000_0000 then u else u - 0x1_0000_0000
  }

  /** Every exchange reports at most six players' words, so the cached count
      never exceeds the number of PIF channels. The as-written loop cap
      needs this; nothing in the source guarantees it. */
  predicate ReportsFitPif(exchange: u32 -> Reply)
  {
    forall v: u32 :: exchange(v).ret / 4 <= PIF_CHANNELS_COUNT
  }

  class NetplaySync {
    var currentFrame: int
    var syncedThisFrame: bool
    var cachedNumReceived: int
    const cachedSyncBuffer: array<u32>
    /** CoreMarkKailleraGameInactive has been called. */
    var markedInactive: bool

    /** Exchanges made since the last frame callback. */
    ghost var exchangesThisFrame: nat
    /** The local inputs sent to the exchange, oldest first. */
    ghost var submitted: seq<u32>

    /** The buffer holds the eight players' words, and the frame has seen
        at most one exchange: exactly one once the flag is set. */
    ghost predicate Valid()
      reads this
    {
      && cachedSyncBuffer.Length == MAX_PLAYERS
      && exchangesThisFrame == (if syncedThisFrame then 1 else 0)
    }

    ghost function Cache(): SyncCache
      reads this, cachedSyncBuffer
    {
      SyncCache(syncedThisFrame, cachedNumReceived, cachedSyncBuffer[..], markedInactive)
    }

    /** The static initialisers of lines 70 and 79-84. */
    constructor ()
      ensures Valid() && fresh(cachedSyncBuffer)
      ensures currentFrame == 0 && Cache() == SyncCache(false, 0, Zeros(), false)
      ensures submitted == []
    {
      currentFrame := 0;
      syncedThisFrame := false;
      cachedNumReceived := 0;
      cachedSyncBuffer := new u32[MAX_PLAYERS](_ => 0);
      markedInactive := false;
      exchangesThisFrame := 0;
      submitted := [];
      new;
      assert cachedSyncBuffer[..] == Zeros();
    }

    /** CoreGetCurrentFrameCount. */
    function CurrentFrameCount(): int
      reads this
    {
      currentFrame
    }

    /** The reset CoreStartEmulation performs before the run call
        (lines 480 and 485-490). */
    method ResetForSession()
      requires Valid()
      modifies this, cachedSyncBuffer
      ensures Valid()
      ensures currentFrame == 0 && Cache() == SyncCache(false, 0, Zeros(), old(markedInactive))
      ensures submitted == old(submitted)
    {
      currentFrame := 0;
      syncedThisFrame := false;
      cachedNumReceived := 0;
      for i := 0 to MAX_PLAYERS
        modifies cachedSyncBuffer
        invariant forall j :: 0 <= j < i ==> cachedSyncBuffer[j] == 0
      {
        cachedSyncBuffer[i] := 0;
      }
      exchangesThisFrame := 0;
      assert cachedSyncBuffer[..] == Zeros();
    }

    /** FrameCallback: the engine sets the frame number and a new frame
        begins, so the next controller read may exchange again. */
    method FrameCallback(frameIndex: int)
      requires Valid() && 0 <= frameIndex < 0x1_0000_0000
      modifies this
      ensures Valid()
      ensures currentFrame == AsInt32(frameIndex)
      ensures Cache() == old(Cache()).(synced := false)
      ensures exchangesThisFrame == 0 && submitted == old(submitted)
    {
      currentFrame := AsInt32(frameIndex);
      syncedThisFrame := false;
      exchangesThisFrame := 0;
    }

    /** KailleraPifSyncCallback as written: the rewrite loop is capped at
        MAX_PLAYERS, so it is only safe while the cached count stays within
        the six channels (see the findings). */
    method KailleraPifSync(pif: array<Channel>, ctx: Context, exchange: u32 -> Reply)
      requires Valid() && pif.Length == PIF_CHANNELS_COUNT && AllWellSized(pif[..])
      requires cachedNumReceived <= PIF_CHANNELS_COUNT && ReportsFitPif(exchange)
      modifies this, cachedSyncBuffer, pif
      ensures Valid() && cachedNumReceived <= PIF_CHANNELS_COUNT
      ensures PollFits(old(Cache()), old(pif[..]), ctx, exchange, MAX_PLAYERS)
      ensures Cache() == Poll(old(Cache()), old(pif[..]), ctx, exchange, MAX_PLAYERS).cache
      ensures pif[..] == Poll(old(Cache()), old(pif[..]), ctx, exchange, MAX_PLAYERS).channels
      ensures currentFrame == old(currentFrame)
      ensures Active(ctx) && Triggers(old(Cache()), old(pif[0]))
        ==> submitted == old(submitted) + [LocalInput(old(pif[0]))]
      ensures !(Active(ctx) && Triggers(old(Cache()), old(pif[0]))) ==> submitted == old(submitted)
    {
      Intercept(pif, ctx, exchange, MAX_PLAYERS);
    }

    /** The callback with the loop capped at the channel count: no
        assumption on what the exchange reports. */
    method KailleraPifSyncBounded(pif: array<Channel>, ctx: Context, exchange: u32 -> Reply)
      requires Valid() && pif.Length == PIF_CHANNELS_COUNT && AllWellSized(pif[..])
      modifies this, cachedSyncBuffer, pif
      ensures Valid()
      ensures PollFits(old(Cache()), old(pif[..]), ctx, exchange, PIF_CHANNELS_COUNT)
      ensures Cache() == Poll(old(Cache()), old(pif[..]), ctx, exchange, PIF_CHANNELS_COUNT).cache
      ensures pif[..] == Poll(old(Cache()), old(pif[..]), ctx, exchange, PIF_CHANNELS_COUNT).channels
      ensures currentFrame == old(currentFrame)
      ensures Active(ctx) && Triggers(old(Cache()), old(pif[0]))
        ==> submitted == old(submitted) + [LocalInput(old(pif[0]))]
      ensures !(Active(ctx) && Triggers(old(Cache()), old(pif[0]))) ==> submitted == old(submitted)
    {
      BoundedRewriteFits(Cache(), pif[..], ctx, exchange);
      Intercept(pif, ctx, exchange, PIF_CHANNELS_COUNT);
    }

    /** The body of the callback, with the loop cap of line 159 as `limit`. */
    method Intercept(pif: array<Channel>, ctx: Context, exchange: u32 -> Reply, limit: nat)
      requires Valid() && pif.Length == PIF_CHANNELS_COUNT && AllWellSized(pif[..])
      requires limit <= MAX_PLAYERS
      requires PollFits(Cache(), pif[..], ctx, exchange, limit)
      modifies this, cachedSyncBuffer, pif
      ensures Valid()
      ensures Cache() == Poll(old(Cache()), old(pif[..]), ctx, exchange, limit).cache
      ensures pif[..] == Poll(old(Cache()), old(pif[..]), ctx, exchange, limit).channels
      ensures currentFrame == old(currentFrame)
      ensures Active(ctx) && Triggers(old(Cache()), old(pif[0]))
        ==> submitted == old(submitted) + [LocalInput(old(pif[0]))]
      ensures !(Active(ctx) && Triggers(old(Cache()), old(pif[0]))) ==> submitted == old(submitted)
    {
      if !ctx.kailleraInit {
        return;
      }
      if ctx.playerNumber < 1 || ctx.playerNumber > MAX_PLAYERS {
        return;
      }
      assert WellSized(pif[0]);
      var failed := SyncOnControllerRead(pif[0], exchange);
      if failed {
        return;
      }
      if cachedNumReceived > 0 {
        RewriteChannels(pif, limit);
      }
    }

    /** Lines 114-154: on the frame's first controller read on channel 0,
        mark the frame synced, exchange the local input and cache the
        result; `failed` says the exchange returned a non-positive value,
        after which the callback returns without rewriting. */
    method SyncOnControllerRead(c0: Channel, exchange: u32 -> Reply) returns (failed: bool)
      requires Valid() && WellSized(c0)
      modifies this, cachedSyncBuffer
      ensures Valid()
      ensures Cache() == Synchronize(old(Cache()), c0, exchange)
      ensures failed == (Triggers(old(Cache()), c0) && exchange(LocalInput(c0)).ret <= 0)
      ensures currentFrame == old(currentFrame)
      ensures Triggers(old(Cache()), c0) ==> submitted == old(submitted) + [LocalInput(c0)]
      ensures !Triggers(old(Cache()), c0) ==> submitted == old(submitted)
    {
      failed := false;
      var isControllerRead := c0.command.Some? && c0.command.value == JCMD_CONTROLLER_READ
                              && c0.reply.Some?;
      if isControllerRead && !syncedThisFrame {
        syncedThisFrame := true;
        var localInput := DecodeBigEndian(c0.reply.value);
        var reply := exchange(localInput);
        var syncBuffer := ExchangeBuffer(localInput, reply.filled);
        exchangesThisFrame := exchangesThisFrame + 1;
        submitted := submitted + [localInput];
        if reply.ret <= 0 {
          markedInactive := true;
          cachedNumReceived := 0;
          StoreCache(Zeros());
          failed := true;
          return;
        }
        cachedNumReceived := reply.ret / 4;
        StoreCache(syncBuffer[..]);
      }
    }

    /** The word-by-word copy into s_CachedSyncBuffer (a memset with zero
        when the exchange failed, a memcpy of sync_buffer otherwise). */
    method StoreCache(words: seq<u32>)
      requires cachedSyncBuffer.Length == MAX_PLAYERS && |words| == MAX_PLAYERS
      modifies cachedSyncBuffer
      ensures cachedSyncBuffer[..] == words
    {
      for i := 0 to MAX_PLAYERS
        invariant forall j :: 0 <= j < i ==> cachedSyncBuffer[j] == words[j]
      {
        cachedSyncBuffer[i] := words[i];
      }
    }

    /** Lines 129-133: sync_buffer is zeroed, slot 0 seeded with the local
        input, and the exchange writes its words over the start of it. */
    static method ExchangeBuffer(localInput: u32, filled: seq<u32>) returns (syncBuffer: array<u32>)
      ensures fresh(syncBuffer) && syncBuffer[..] == SyncBuffer(localInput, filled)
    {
      syncBuffer := new u32[MAX_PLAYERS](_ => 0);
      syncBuffer[0] := localInput;
      var k := 0;
      while k < |filled| && k < MAX_PLAYERS
        invariant 0 <= k <= MAX_PLAYERS && k <= |filled|
        invariant forall j :: 0 <= j < MAX_PLAYERS ==>
          syncBuffer[j] == if j < k then filled[j] else if j == 0 then localInput else 0
      {
        syncBuffer[k] := filled[k];
        k := k + 1;
      }
      assert syncBuffer[..] == SyncBuffer(localInput, filled);
    }

    /** The rewrite loop of lines 158-195 over the cached words. */
    method RewriteChannels(pif: array<Channel>, limit: nat)
      requires cachedSyncBuffer.Length == MAX_PLAYERS && limit <= MAX_PLAYERS
      requires pif.Length == PIF_CHANNELS_COUNT && AllWellSized(pif[..])
      requires Bound(cachedNumReceived, limit) <= pif.Length
      modifies pif
      ensures pif[..] == Rewritten(old(pif[..]), cachedNumReceived, cachedSyncBuffer[..], limit)
    {
      var i := 0;
      while i < cachedNumReceived && i < limit
        invariant 0 <= i <= Bound(cachedNumReceived, limit)
        invariant forall j :: 0 <= j < i ==> pif[j] == RewriteChannel(old(pif[j]), cachedSyncBuffer[j])
        invariant forall j :: i <= j < pif.Length ==> pif[j] == old(pif[j])
      {
        var ch := pif[i];
        assert WellSized(ch);
        if ch.command.Some? && ch.status.Some? {
          ch := ch.(status := Some(ClearErrorBits(ch.status.value)));
          var cmd := ch.command.value;
          if cmd == JCMD_STATUS || cmd == JCMD_RESET {
            if ch.reply.Some? {
              ch := ch.(reply := Some(WriteDescriptor(ch.reply.value)));
            }
          } else if cmd == JCMD_CONTROLLER_READ {
            if ch.reply.Some? {
              ch := ch.(reply := Some(WriteWord(ch.reply.value, cachedSyncBuffer[i])));
            }
          } else if cmd == JCMD_PAK_READ && ch.reply.Some? {
            ch := ch.(reply := Some(ch.reply.value[PAK_READ_TAIL := PAK_ABSENT]));
          } else if cmd == JCMD_PAK_WRITE && ch.reply.Some? {
            ch := ch.(reply := Some(ch.reply.value[0 := PAK_ABSENT]));
          }
          pif[i] := ch;
        }
        i := i + 1;
      }
      assert pif[..] == Rewritten(old(pif[..]), cachedNumReceived, cachedSyncBuffer[..], limit);
    }
  }

  /** The once-per-frame contract in terms of the object: after a frame
      callback, the next triggering poll exchanges, and any later poll of
      the same frame does not. */
  lemma TickResetAllowsOneExchange(c: SyncCache, polls: seq<Channel>, ctx: Context, exchange: u32 -> Reply)
    requires AllWellSized(polls) && |c.words| == MAX_PLAYERS && Active(ctx)
    requires |polls| >= 2 && IsControllerRead(polls[0]) && IsControllerRead(polls[1])
    ensures FrameExchanges(c.(synced := false), polls, ctx, exchange) == 1
  {
    ExactlyOncePerFrame(c.(synced := false), polls, ctx, exchange);
  }
}
