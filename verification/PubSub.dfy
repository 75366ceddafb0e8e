/** The in-process pub/sub: a bounded channel with a close signal. A publisher first checks the
    closed flag under the lock and only then offers its event, so a close may fall in between. */
module PubSub {
  import opened HubCore

  const CHANNEL_CAP := 64

  datatype Offered = Sent | Released | StillBlocked

  datatype Taken = Message(event: Event) | Closed | Cancelled | Idle

  class InMem {
    var ch: seq<Event>
    var closed: bool
    ghost var sent: seq<Event>      // every event a publisher got into the channel
    ghost var received: seq<Event>  // every event the subscriber took out

    ghost predicate Valid()
      reads this
    {
      |ch| <= CHANNEL_CAP && sent == received + ch
    }

    constructor ()
      ensures Valid() && !closed && sent == [] && received == []
    {
      ch, closed, sent, received := [], false, [], [];
    }

    /** The second half of Publish, once the check of the closed flag has passed: the select between
        the channel and the close signal. With both ready either may be picked; `preferClose` is
        that pick. */
    method Offer(ev: Event, preferClose: bool) returns (r: Offered)
      requires Valid()
      modifies this`ch, this`sent
      ensures Valid()
      ensures r.Sent? <==> |old(ch)| < 64 && !(closed && preferClose)
      ensures r.Released? ==> closed
      ensures r.StillBlocked? <==> |old(ch)| == 64 && !closed
      ensures sent == old(sent) + if r.Sent? then [ev] else []
    {
      if |ch| < CHANNEL_CAP && !(closed && preferClose) {
        ch := ch + [ev];
        sent := sent + [ev];
        r := Sent;
      } else if closed {
        r := Released;
      } else {
        r := StillBlocked;
      }
    }

    /** Publish. Only with a close that falls between the check and the select, `closesBetween`, can
        an event still get into a closed channel. */
    method Publish(ev: Event, closesBetween: bool, preferClose: bool) returns (r: Offered)
      requires Valid()
      modifies this`ch, this`sent, this`closed
      ensures Valid() && closed == (old(closed) || closesBetween)
      ensures r.Sent? <==> !old(closed) && |old(ch)| < 64 && !(closesBetween && preferClose)
      ensures r.StillBlocked? <==> |old(ch)| == 64 && !closed
      ensures sent == old(sent) + if r.Sent? then [ev] else []
    {
      if closed {
        closed := closed || closesBetween;
        return Released;
      }
      closed := closesBetween;
      r := Offer(ev, preferClose);
    }

    /** One turn of the Subscribe loop: a select between the channel, the caller's context and the
        close signal. Any case that is ready may be picked. */
    method Take(ctxDone: bool) returns (r: Taken)
      requires Valid()
      modifies this`ch, this`received
      ensures Valid()
      ensures r.Message? ==> old(ch) != [] && ch == old(ch)[1..]
      ensures r.Message? ==> |old(received)| < |sent| && r.event == sent[|old(received)|]
      ensures received == old(received) + if r.Message? then [r.event] else []
      ensures r.Closed? ==> closed
      ensures r.Cancelled? ==> ctxDone
      ensures r.Idle? <==> old(ch) == [] && !closed && !ctxDone
    {
      if {
        case ch != [] =>
          r := Message(ch[0]);
          received := received + [ch[0]];
          ch := ch[1..];
        case closed =>
          r := Closed;
        case ctxDone =>
          r := Cancelled;
        case ch == [] && !closed && !ctxDone =>
          r := Idle;
      }
    }

    method Close()
      requires Valid()
      modifies this`closed
      ensures Valid() && closed
    {
      closed := true;
    }

    /** The Subscribe loop, while others step in between: the publishers of `incoming` offer their
        events in this order, and, if `closes` or `cancels` says so, somebody closes the channel or
        ends the context at some point. The loop hands over exactly what was sent, once and in order;
        what it leaves behind when it ends is still in the channel. Without a close or an end of
        the context, it comes to rest only when everything was published and handed over. */
    method Subscribe(incoming: seq<Event>, closes: bool, cancels: bool) returns (delivered: seq<Event>, ended: bool)
      requires Valid()
      modifies this`ch, this`sent, this`received, this`closed
      ensures Valid()
      ensures received == old(received) + delivered
      ensures old(sent) <= sent && sent == old(received) + delivered + ch
      ensures ended ==> closed || cancels
      ensures !ended ==> ch == []
      ensures closed ==> closes || old(closed)
      ensures !closed && !ended ==> sent == old(sent) + incoming
      ensures !old(closed) && !closes && !cancels ==> !ended && old(received) + delivered == old(sent) + incoming
    {
      delivered, ended := [], false;
      var ctxDone, k := false, 0;
      while !ended && (k < |incoming| || ch != [] || closed || ctxDone)
        invariant Valid() && 0 <= k <= |incoming|
        invariant received == old(received) + delivered
        invariant old(sent) <= sent
        invariant !closed ==> sent == old(sent) + incoming[..k]
        invariant ctxDone ==> cancels
        invariant closed ==> closes || old(closed)
        invariant ended ==> closed || ctxDone
        decreases !ended, |incoming| - k, |ch|, !closed, !ctxDone
      {
        if {
          case closes && !closed =>
            Close();
          case cancels && !ctxDone =>
            ctxDone := true;
          case k < |incoming| && (closed || |ch| < CHANNEL_CAP) =>
            var preferClose := *;
            var o := Offer(incoming[k], preferClose);
            assert incoming[..k + 1] == incoming[..k] + [incoming[k]];
            k := k + 1;
          case ch != [] || closed || ctxDone =>
            var r := Take(ctxDone);
            match r {
              case Message(ev) => delivered := delivered + [ev];
              case _ => ended := true;
            }
        }
      }
      assert incoming[..|incoming|] == incoming;
    }
  }
}
