/** The on-screen display's state (RMG OnScreenDisplay.cpp): the
    initialised and paused flags, the system message, and the bounded FIFO
    of netplay chat entries with append-then-trim, clear-on-empty, the
    clamped maximum and age-based expiry from the front. Clock readings
    are integer nanosecond ticks passed in as `now`. */
module ChatDisplay {
  import opened Settings

  /** Clock ticks per second (high_resolution_clock counts nanoseconds). */
  const TICKS_PER_SECOND: int := 1_000_000_000

  /** A KailleraChatEntry: the text and the clock reading when it arrived. */
  datatype ChatEntry = ChatEntry(message: string, time: int)

  /** duration_cast<seconds>(now - time).count(): whole seconds, truncated
      toward zero. */
  function AgeSeconds(now: int, time: int): (age: int)
    ensures now >= time ==> age >= 0 && age * TICKS_PER_SECOND <= now - time < (age + 1) * TICKS_PER_SECOND
    ensures now < time ==> age <= 0 && (age - 1) * TICKS_PER_SECOND < now - time <= age * TICKS_PER_SECOND
  {
    var d := now - time;
    if d >= 0 then d / TICKS_PER_SECOND else -((-d) / TICKS_PER_SECOND)
  }

  ////////////////////////////////////////////////////////////////////////
  // The queue operations as functions

  /** The queue after `while (size > max) pop_front()`. */
  function Trim(q: seq<ChatEntry>, max: nat): seq<ChatEntry>
    decreases |q|
  {
    if |q| <= max then q else Trim(q[1..], max)
  }

  /** Trimming keeps exactly the newest min(|q|, max) entries, in order. */
  lemma {:induction false} TrimKeepsNewest(q: seq<ChatEntry>, max: nat)
    ensures |q| <= max ==> Trim(q, max) == q
    ensures |q| > max ==> Trim(q, max) == q[|q| - max..]
    decreases |q|
  {
    if |q| > max {
      TrimKeepsNewest(q[1..], max);
      if |q| - 1 > max {
        assert q[1..][|q| - 1 - max..] == q[|q| - max..];
      }
    }
  }

  /** The trimmed queue holds at most max entries and is a suffix of q. */
  lemma TrimBoundedSuffix(q: seq<ChatEntry>, max: nat)
    ensures |Trim(q, max)| <= max
    ensures |Trim(q, max)| <= |q| && Trim(q, max) == q[|q| - |Trim(q, max)|..]
  {
    TrimKeepsNewest(q, max);
  }

  /** Appending a message and trimming to max >= 1 leaves at most max
      entries, the new one last, preceded by the newest older entries in
      their original order. */
  lemma PushTrimKeepsNewest(q: seq<ChatEntry>, e: ChatEntry, max: nat)
    requires max >= 1
    ensures var r := Trim(q + [e], max);
      && |r| <= max
      && |r| > 0 && r[|r| - 1] == e
      && r[..|r| - 1] == q[|q| - (|r| - 1)..]
  {
    TrimKeepsNewest(q + [e], max);
    var r := Trim(q + [e], max);
    if |q| + 1 > max {
      assert r[..|r| - 1] == (q + [e])[|q| + 1 - max..|q|];
    } else {
      assert r[..|r| - 1] == q;
    }
  }

  /** The queue after the render loop: pop from the front while the front
      entry is `duration` seconds old or older. */
  function Expire(q: seq<ChatEntry>, now: int, duration: int): seq<ChatEntry>
    decreases |q|
  {
    if q == [] || AgeSeconds(now, q[0].time) < duration then q else Expire(q[1..], now, duration)
  }

  /** Expiry drops a prefix of entries that are all old and keeps the rest
      unchanged; the first entry it keeps, if any, is younger than
      `duration`. */
  lemma {:induction false} ExpireDropsOldPrefix(q: seq<ChatEntry>, now: int, duration: int)
    ensures var r := Expire(q, now, duration);
      && |r| <= |q| && r == q[|q| - |r|..]
      && (forall i :: 0 <= i < |q| - |r| ==> AgeSeconds(now, q[i].time) >= duration)
      && (r != [] ==> AgeSeconds(now, r[0].time) < duration)
    decreases |q|
  {
    if q != [] && AgeSeconds(now, q[0].time) >= duration {
      ExpireDropsOldPrefix(q[1..], now, duration);
      var r := Expire(q, now, duration);
      assert r == Expire(q[1..], now, duration);
      assert forall i :: 1 <= i < |q| - |r| ==> q[i] == q[1..][i - 1];
    }
  }

  /** A second expiry at the same time removes nothing more. */
  lemma ExpireIdempotent(q: seq<ChatEntry>, now: int, duration: int)
    ensures Expire(Expire(q, now, duration), now, duration) == Expire(q, now, duration)
  {
    ExpireDropsOldPrefix(q, now, duration);
  }

  /** Expiry never lengthens the queue, so it keeps the size bound. */
  lemma ExpireKeepsBound(q: seq<ChatEntry>, now: int, duration: int, max: nat)
    requires |q| <= max
    ensures |Expire(q, now, duration)| <= max
  {
    ExpireDropsOldPrefix(q, now, duration);
  }

  /** The setting clamp: a configured maximum below 1 becomes 1. */
  function ClampMax(configured: int): (max: nat)
    ensures max >= 1
    ensures configured >= 1 ==> max == configured
    ensures configured < 1 ==> max == 1
  {
    if configured < 1 then 1 else configured
  }

  ////////////////////////////////////////////////////////////////////////
  // The display

  class OnScreenDisplay {
    /** l_Initialized, l_Enabled, l_RenderingPaused. */
    var initialized: bool
    var enabled: bool
    var renderingPaused: bool
    /** l_Message and l_MessageTime. */
    var message: string
    var messageTime: int
    /** l_KailleraChatMessages, front first. */
    var chat: seq<ChatEntry>
    /** l_MessageDuration (seconds) and l_KailleraChatMaxMessages. */
    var messageDuration: int
    var chatMaxMessages: nat

    /** The queue never exceeds its maximum, which is at least 1. */
    ghost predicate Valid()
      reads this
    {
      chatMaxMessages >= 1 && |chat| <= chatMaxMessages
    }

    /** The initial values of the globals. */
    constructor ()
      ensures Valid()
      ensures !initialized && !enabled && !renderingPaused
      ensures message == "" && messageTime == 0 && chat == []
      ensures messageDuration == 6 && chatMaxMessages == 5
    {
      initialized := false;
      enabled := false;
      renderingPaused := false;
      message := "";
      messageTime := 0;
      chat := [];
      messageDuration := 6;
      chatMaxMessages := 5;
    }

    /** OnScreenDisplayInit: fails when already initialised or when the
        renderer back end (`backendOk`) fails to start. */
    method Init(backendOk: bool) returns (ok: bool)
      modifies this`initialized
      ensures ok <==> !old(initialized) && backendOk
      ensures initialized == (old(initialized) || backendOk)
    {
      if initialized {
        return false;
      }
      if !backendOk {
        return false;
      }
      initialized := true;
      return true;
    }

    /** OnScreenDisplayShutdown: when initialised, clears the message and
        the queue and lowers both flags; otherwise does nothing. */
    method Shutdown()
      requires Valid()
      modifies this`message, this`chat, this`initialized, this`renderingPaused
      ensures Valid()
      ensures old(initialized) ==> message == "" && chat == [] && !initialized && !renderingPaused
      ensures !old(initialized) ==>
        message == old(message) && chat == old(chat) && !initialized && renderingPaused == old(renderingPaused)
    {
      if !initialized {
        return;
      }
      message := "";
      chat := [];
      initialized := false;
      renderingPaused := false;
    }

    /** The queue part of OnScreenDisplayLoadSettings: the enabled flag,
        the duration and the clamped maximum are read from the settings,
        then the queue is trimmed from the front. */
    method LoadSettings(store: Store)
      modifies this`enabled, this`messageDuration, this`chatMaxMessages, this`chat
      ensures Valid()
      ensures enabled == GetBool(store, GUI_OnScreenDisplayEnabled)
      ensures messageDuration == GetInt(store, GUI_OnScreenDisplayDuration)
      ensures chatMaxMessages == ClampMax(GetInt(store, GUI_OnScreenDisplayMaxMessages))
      ensures chat == Trim(old(chat), chatMaxMessages)
    {
      enabled := GetBool(store, GUI_OnScreenDisplayEnabled);
      messageDuration := GetInt(store, GUI_OnScreenDisplayDuration);
      var maxChatMessages := GetInt(store, GUI_OnScreenDisplayMaxMessages);
      if maxChatMessages < 1 {
        maxChatMessages := 1;
      }
      chatMaxMessages := maxChatMessages;
      TrimQueue();
    }

    /** `while (size > max) pop_front()`. */
    method TrimQueue()
      requires chatMaxMessages >= 1
      modifies this`chat
      ensures Valid()
      ensures chat == Trim(old(chat), chatMaxMessages)
    {
      ghost var q := chat;
      while |chat| > chatMaxMessages
        invariant Trim(chat, chatMaxMessages) == Trim(q, chatMaxMessages)
        decreases |chat|
      {
        chat := chat[1..];
      }
    }

    /** OnScreenDisplaySetMessage at clock reading `now`. */
    method SetMessage(msg: string, now: int)
      modifies this`message, this`messageTime
      ensures old(initialized) ==> message == msg && messageTime == now
      ensures !old(initialized) ==> message == old(message) && messageTime == old(messageTime)
    {
      if !initialized {
        return;
      }
      message := msg;
      messageTime := now;
    }

    /** OnScreenDisplaySetKailleraChatMessage at clock reading `now`. */
    method SetChatMessage(msg: string, now: int)
      requires Valid()
      modifies this`chat
      ensures Valid()
      ensures !initialized ==> chat == old(chat)
      ensures initialized && msg == "" ==> chat == []
      ensures initialized && msg != "" ==> chat == Trim(old(chat) + [ChatEntry(msg, now)], chatMaxMessages)
    {
      if !initialized {
        return;
      }
      if msg == "" {
        chat := [];
        return;
      }
      chat := chat + [ChatEntry(msg, now)];
      TrimQueue();
    }

    /** The state part of OnScreenDisplayRender at clock reading `now`:
        nothing happens when uninitialised or paused; otherwise old chat
        entries expire and the two flags say what would be drawn. */
    method Render(now: int) returns (hasSystemMessage: bool, hasChatMessage: bool)
      requires Valid()
      modifies this`chat
      ensures Valid()
      ensures !initialized || renderingPaused ==> chat == old(chat) && !hasSystemMessage && !hasChatMessage
      ensures initialized && !renderingPaused ==>
        && chat == Expire(old(chat), now, messageDuration)
        && hasSystemMessage == (enabled && message != "" && AgeSeconds(now, messageTime) < messageDuration)
        && hasChatMessage == (enabled && chat != [])
    {
      if !initialized || renderingPaused {
        return false, false;
      }
      hasSystemMessage := enabled && message != "" && AgeSeconds(now, messageTime) < messageDuration;
      ghost var q := chat;
      while chat != []
        invariant Expire(chat, now, messageDuration) == Expire(q, now, messageDuration)
        invariant |chat| <= |q|
        decreases |chat|
      {
        var ageSeconds := AgeSeconds(now, chat[0].time);
        if ageSeconds < messageDuration {
          break;
        }
        chat := chat[1..];
      }
      hasChatMessage := enabled && chat != [];
    }

    /** OnScreenDisplayPause: only the paused flag changes. */
    method Pause()
      modifies this`renderingPaused
      ensures renderingPaused
    {
      renderingPaused := true;
    }

    /** OnScreenDisplayResume: only the paused flag changes. */
    method Resume()
      modifies this`renderingPaused
      ensures !renderingPaused
    {
      renderingPaused := false;
    }
  }
}
