/**
 * The port-discovery reader: the background task that drains the sidecar's
 * command events, recognises the first port announcement on standard output,
 * and delivers it once through a one-shot channel.
 */
module PortDiscovery {
  import opened Wrappers
  import opened Sentinel

  /** The events the shell plugin delivers for a spawned command; output lines are already decoded. */
  datatype CommandEvent =
    | Stdout(line: string)
    | Stderr(line: string)
    | Error(message: string)
    | Terminated(code: Option<int>, signal: Option<int>)
    | Other  // any further event kind, which the reader ignores

  /** A standard-output line that the sentinel matcher accepts. */
  predicate Announces(e: CommandEvent) {
    e.Stdout? && MatchPortLine(e.line).Some?
  }

  predicate HasTermination(events: seq<CommandEvent>) {
    exists k :: 0 <= k < |events| && events[k].Terminated?
  }

  /**
   * What the reader sends: the port of the first announcement that precedes every
   * `Terminated` event, or nothing.
   */
  function FirstAnnouncement(events: seq<CommandEvent>): Option<U16> {
    if events == [] then None
    else match events[0]
      case Terminated(_, _) => None
      case Stdout(line) =>
        if MatchPortLine(line).Some? then MatchPortLine(line) else FirstAnnouncement(events[1..])
      case _ => FirstAnnouncement(events[1..])
  }

  /** How many events the reader takes from the stream: all of them, up to and including the first `Terminated`. */
  function ConsumedCount(events: seq<CommandEvent>): nat {
    if events == [] then 0
    else if events[0].Terminated? then 1
    else 1 + ConsumedCount(events[1..])
  }

  /** Event `i` is the first announcement, it announces `p`, and no termination comes before it. */
  ghost predicate AnnouncedFirstAt(events: seq<CommandEvent>, i: int, p: U16) {
    && 0 <= i < |events|
    && events[i].Stdout? && MatchPortLine(events[i].line) == Some(p)
    && forall j :: 0 <= j < i ==> !events[j].Terminated? && !Announces(events[j])
  }

  /** The reader's result is the port of the first announcement not preceded by a termination. */
  lemma {:induction false} FirstAnnouncementSome(events: seq<CommandEvent>, p: U16)
    ensures FirstAnnouncement(events) == Some(p) <==> exists i :: AnnouncedFirstAt(events, i, p)
  {
    if events != [] {
      var e, rest := events[0], events[1..];
      FirstAnnouncementSome(rest, p);
      if exists i :: AnnouncedFirstAt(events, i, p) {
        var i :| AnnouncedFirstAt(events, i, p);
        if i > 0 {
          assert AnnouncedFirstAt(rest, i - 1, p) by {
            forall j | 0 <= j < i - 1 ensures !rest[j].Terminated? && !Announces(rest[j]) {
              assert rest[j] == events[j + 1];
            }
          }
        }
      }
      if FirstAnnouncement(events) == Some(p) && !Announces(e) {
        var i :| AnnouncedFirstAt(rest, i, p);
        assert AnnouncedFirstAt(events, i + 1, p) by {
          forall j | 0 <= j < i + 1 ensures !events[j].Terminated? && !Announces(events[j]) {
            if j > 0 { assert events[j] == rest[j - 1]; }
          }
        }
      }
      if FirstAnnouncement(events) == Some(p) && Announces(e) {
        assert AnnouncedFirstAt(events, 0, p);
      }
    }
  }

  /**
   * No port is sent exactly when every announcement comes after a termination;
   * in particular `Stderr`, `Error` and other events never yield one.
   */
  lemma {:induction false} FirstAnnouncementNone(events: seq<CommandEvent>)
    ensures FirstAnnouncement(events).None?
            <==> forall i :: 0 <= i < |events| && Announces(events[i]) ==> HasTermination(events[..i])
  {
    if events != [] {
      var e, rest := events[0], events[1..];
      FirstAnnouncementNone(rest);
      forall i | 1 <= i <= |events| ensures events[..i] == [e] + rest[..i - 1] {
      }
      if FirstAnnouncement(events).None? && !e.Terminated? {
        forall i | 0 <= i < |events| && Announces(events[i]) ensures HasTermination(events[..i]) {
          assert i > 0;
          assert rest[i - 1] == events[i];
          var k :| 0 <= k < |rest[..i - 1]| && rest[..i - 1][k].Terminated?;
          assert events[..i][k + 1] == rest[..i - 1][k];
        }
      }
      if e.Terminated? {
        forall i | 0 <= i < |events| && Announces(events[i]) ensures HasTermination(events[..i]) {
          assert i > 0 && events[..i][0] == e;
        }
      }
      if !e.Terminated? && (forall i :: 0 <= i < |events| && Announces(events[i]) ==> HasTermination(events[..i])) {
        assert !Announces(e) by {
          assert !HasTermination(events[..0]);
        }
        forall i | 0 <= i < |rest| && Announces(rest[i]) ensures HasTermination(rest[..i]) {
          assert events[i + 1] == rest[i];
          assert HasTermination(events[..i + 1]);
          var k :| 0 <= k < i + 1 && events[..i + 1][k].Terminated?;
          assert k > 0;
          assert rest[..i][k - 1] == events[..i + 1][k];
        }
      }
    }
  }

  /**
   * Appending events changes nothing once the reader has sent a port or seen a
   * termination; otherwise the appended events alone decide. So the port is sent at
   * most once, later announcements never replace it, and nothing after a
   * termination is read.
   */
  lemma {:induction false} FirstAnnouncementAppend(s: seq<CommandEvent>, t: seq<CommandEvent>)
    ensures FirstAnnouncement(s + t)
            == if FirstAnnouncement(s).Some? || HasTermination(s) then FirstAnnouncement(s) else FirstAnnouncement(t)
  {
    if s == [] {
      assert s + t == t;
    } else {
      assert (s + t)[0] == s[0] && (s + t)[1..] == s[1..] + t;
      FirstAnnouncementAppend(s[1..], t);
      if !s[0].Terminated? {
        assert HasTermination(s) <==> HasTermination(s[1..]) by {
          if HasTermination(s) {
            var k :| 0 <= k < |s| && s[k].Terminated?;
            assert s[1..][k - 1] == s[k];
          }
          if HasTermination(s[1..]) {
            var k :| 0 <= k < |s[1..]| && s[1..][k].Terminated?;
            assert s[k + 1] == s[1..][k];
          }
        }
      } else {
        assert HasTermination(s);
      }
    }
  }

  /** The reader stops on the first `Terminated` event; before it, it reads everything. */
  lemma {:induction false} ConsumedCountSpec(events: seq<CommandEvent>)
    ensures ConsumedCount(events) <= |events|
    ensures forall j :: 0 <= j < ConsumedCount(events) - 1 ==> !events[j].Terminated?
    ensures HasTermination(events) ==> 0 < ConsumedCount(events) && events[ConsumedCount(events) - 1].Terminated?
    ensures !HasTermination(events) ==> ConsumedCount(events) == |events|
  {
    if events != [] {
      var rest := events[1..];
      ConsumedCountSpec(rest);
      if !events[0].Terminated? {
        forall j | 0 <= j < ConsumedCount(events) - 1 ensures !events[j].Terminated? {
          if j > 0 { assert events[j] == rest[j - 1]; }
        }
        if !HasTermination(events) {
          assert !HasTermination(rest) by {
            forall k | 0 <= k < |rest| ensures !rest[k].Terminated? {
              assert rest[k] == events[k + 1];
            }
          }
        }
      } else {
        assert HasTermination(events);
      }
    }
  }

  lemma NoTerminationSnoc(s: seq<CommandEvent>, e: CommandEvent)
    requires !HasTermination(s) && !e.Terminated?
    ensures !HasTermination(s + [e])
  {
    forall k | 0 <= k < |s + [e]| ensures !(s + [e])[k].Terminated? {
      if k < |s| { assert (s + [e])[k] == s[k]; }
    }
  }

  /**
   * The reader task: it receives events until the stream ends or the command
   * terminates, and on each accepted announcement takes the one-shot sender out of
   * its slot, sending the port only when the sender was still there.
   */
  method ReadOutput(events: seq<CommandEvent>) returns (sent: Option<U16>, sends: nat, received: nat)
    ensures sent == FirstAnnouncement(events)
    ensures sends == if sent.Some? then 1 else 0
    ensures received == ConsumedCount(events)
  {
    var senderInSlot := true;
    sent, sends, received := None, 0, 0;
    while received < |events|
      invariant received <= |events|
      invariant !HasTermination(events[..received])
      invariant sent == FirstAnnouncement(events[..received])
      invariant senderInSlot <==> sent.None?
      invariant sends == if sent.Some? then 1 else 0
      invariant received + ConsumedCount(events[received..]) == ConsumedCount(events)
    {
      var event := events[received];
      assert events[..received + 1] == events[..received] + [event];
      if !event.Terminated? {
        NoTerminationSnoc(events[..received], event);
      }
      FirstAnnouncementAppend(events[..received], [event]);
      assert events[received..][1..] == events[received + 1..];
      received := received + 1;
      match event {
        case Stdout(line) =>
          var port := MatchPortLine(line);
          if port.Some? {
            if senderInSlot {
              senderInSlot := false;
              sent, sends := port, sends + 1;
            }
          }
        case Terminated(_, _) =>
          assert events[..received][received - 1].Terminated?;
          assert events == events[..received] + events[received..];
          FirstAnnouncementAppend(events[..received], events[received..]);
          return;
        case _ =>
      }
    }
    assert events[..received] == events;
  }

  /** Startup output of the kind the server prints: a malformed announcement is skipped, the first valid one wins. */
  lemma ReaderExamples()
    ensures FirstAnnouncement([Stdout(PORT_PREFIX + "notanumber"), Stderr("warming up"),
                               Stdout(PORT_PREFIX + "31822"), Stdout(PORT_PREFIX + "4000")]) == Some(31822)
    ensures FirstAnnouncement([Stderr(PORT_PREFIX + "31822"), Error(PORT_PREFIX + "31822"), Other,
                               Terminated(Some(1), None), Stdout(PORT_PREFIX + "31822")]) == None
  {
    AcceptedExamples();
    RejectedExamples();
    var good := [Stdout(PORT_PREFIX + "notanumber"), Stderr("warming up"),
                 Stdout(PORT_PREFIX + "31822"), Stdout(PORT_PREFIX + "4000")];
    assert FirstAnnouncement(good[2..]) == Some(31822);
    assert FirstAnnouncement(good[1..]) == FirstAnnouncement(good[2..]);
    var late := [Stderr(PORT_PREFIX + "31822"), Error(PORT_PREFIX + "31822"), Other,
                 Terminated(Some(1), None), Stdout(PORT_PREFIX + "31822")];
    assert FirstAnnouncement(late[3..]) == None;
    assert FirstAnnouncement(late[2..]) == None;
    assert FirstAnnouncement(late[1..]) == None;
  }
}
