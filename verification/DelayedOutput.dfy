/** An output with a stream delay, its queue changed in place. */
module DelayedOutput {
  import opened StreamDelay

  class Output {
    var delayData: seq<Entry>
    var activeDelayNs: Ns
    var delayActive: bool
    var delayCapturing: bool
    var reconnecting: bool
    var preserve: bool
    var log: seq<Handled>           // the calls made for the messages

    ghost function Abs(): Delay
      reads this
    {
      Delay(delayData, activeDelayNs, delayActive, delayCapturing, reconnecting, preserve, log)
    }

    constructor ()
      ensures Abs() == IDLE
    {
      delayData, activeDelayNs, log := [], 0, [];
      delayActive, delayCapturing, reconnecting, preserve := false, false, false, false;
    }

    method PushMessage(msg: Message, t: Ns)
      modifies this`delayData
      ensures Abs() == Next(old(Abs()), Push(msg, t))
    {
      delayData := delayData + [Entry(msg, t)];
    }

    /** process_delay_data */
    method ProcessDelayData(dd: Entry, t: Ns)
      modifies this`log
      ensures log == old(log) + [Handled(dd, t, HowOf(old(Abs()), dd.msg), true, activeDelayNs)]
    {
      var how;
      match dd.msg {
        case Packet(_) =>
          if !delayActive || !delayCapturing {
            how := Freed;
          } else {
            how := Forwarded;
          }
        case StartMessage => how := Started;
        case StopMessage => how := Stopped;
      }
      log := log + [Handled(dd, t, how, true, activeDelayNs)];
    }

    method PopPacket(t: Ns) returns (popped: bool)
      modifies this
      ensures Abs() == AfterPop(old(Abs()), t)
      ensures popped <==> Due(old(Abs()), t)
    {
      popped := false;
      if delayData != [] {
        var dd := delayData[0];
        var elapsed := Elapsed(t, dd.ts);
        if preserve && reconnecting {
          activeDelayNs := elapsed;
        } else if elapsed > activeDelayNs {
          delayData := delayData[1..];
          popped := true;
          ProcessDelayData(dd, t);
        }
      }
    }

    /** obs_output_cleanup_delay */
    method CleanupDelay(t: Ns)
      modifies this`delayData, this`activeDelayNs, this`log
      ensures Abs() == Cleaned(old(Abs()), t)
    {
      var dropped: seq<Handled> := [];
      while delayData != []
        invariant dropped + Dropped(delayData, t, activeDelayNs) == Dropped(old(delayData), t, activeDelayNs)
        invariant activeDelayNs == old(activeDelayNs) && log == old(log)
        decreases |delayData|
      {
        assert dropped + Dropped(delayData, t, activeDelayNs)
            == dropped + [Drop(delayData[0], t, activeDelayNs)] + Dropped(delayData[1..], t, activeDelayNs);
        dropped := dropped + [Drop(delayData[0], t, activeDelayNs)];
        delayData := delayData[1..];
      }
      log := log + dropped;
      activeDelayNs := 0;
    }

    method ReactTo(reaction: Reaction, t: Ns)
      modifies this
      ensures Abs() == Reacted(old(Abs()), reaction, t)
    {
      delayActive, delayCapturing, reconnecting := reaction.active, reaction.capturing, reaction.reconnecting;
      if reaction.cleanup {
        CleanupDelay(t);
      }
    }

    /** process_delay: queue the packet, then pop until nothing is due. `reactions` are what the code
        behind the messages does, in the order of the messages handled. */
    method ProcessDelay(packet: nat, t: Ns, reactions: seq<Reaction>)
      modifies this
      ensures Abs() == Process(Next(old(Abs()), Push(Packet(packet), t)), t, reactions)
    {
      PushMessage(Packet(packet), t);
      var k := 0;
      var popped := true;
      while popped
        invariant k <= |reactions|
        invariant (if popped then Process(Abs(), t, reactions[k..]) else Abs())
               == Process(Next(old(Abs()), Push(Packet(packet), t)), t, reactions)
        decreases popped, |delayData|
      {
        popped := PopPacket(t);
        if popped && k < |reactions| {
          ReactTo(reactions[k], t);
          k := k + 1;
        }
      }
    }
  }
}
