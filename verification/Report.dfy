/**
  What leaves the process after a run, from cmd/queuelabrun/main.go: the record is persisted and read back
  before anything countable is printed, and the channel depends on whether the read-back succeeded.
 */
module Report {
  import opened Common
  import opened RunPhases

  /** One ledger event, opaque here. */
  type Event = int

  datatype Measurement = Measurement(deviceUseEstablished: bool)

  /** `requireDeviceEvidence`: a passed run without the device evidence it was declared for has failed. */
  function RequireDeviceEvidence(o: Outcome, m: Option<Measurement>, required: bool): (r: Outcome)
    ensures r.disposition == ChecksPassed <==>
              && o.disposition == ChecksPassed
              && (required && m.Some? ==> m.value.deviceUseEstablished)
    ensures r != o ==> o.disposition == ChecksPassed && r.disposition == DeviceNotEstablished
  {
    if !required || m.None? || m.value.deviceUseEstablished then o
    else if o.disposition != ChecksPassed then o
    else Outcome(DeviceNotEstablished, [DeviceNotEstablished])
  }

  /** `classified`: a run that set no disposition is named a failure. */
  function Classified(o: Outcome): (r: Outcome)
    ensures r.disposition != Unset && (r.disposition == ChecksPassed <==> o.disposition == ChecksPassed)
  {
    if o.disposition != Unset then o else Outcome(Unclassified, [Unclassified] + o.causes)
  }

  datatype Channel = Stdout | Stderr

  datatype Entry =
    | Wrote
    | ReadBack
    | Line(channel: Channel, text: Text)

  datatype Text =
    | RecordPath | Unreadable | NotPersisted | Failed(d: Disposition)
    | Numbers | NumbersWithheld | Count(n: nat) | OneEvent(event: Event) | EventsWithheld | Banner

  datatype RunReport = RunReport(outcome: Outcome, events: seq<Event>, hasResult: bool, preview: bool)

  function EventsOn(log: seq<Entry>, c: Channel): seq<Event> {
    if log == [] then []
    else
      var rest, last := EventsOn(log[..|log| - 1], c), log[|log| - 1];
      if last.Line? && last.channel == c && last.text.OneEvent? then rest + [last.text.event] else rest
  }

  /** A line a reader could count: a figure or an event. */
  predicate Countable(e: Entry) {
    e.Line? && (e.text.Numbers? || e.text.OneEvent?)
  }

  /** Every countable line stands behind the write of the record and its read-back. */
  predicate RecordFirst(log: seq<Entry>) {
    forall i :: 0 <= i < |log| && Countable(log[i]) ==> 1 < i && log[0] == Wrote && log[1] == ReadBack
  }

  lemma EventsOnLast(log: seq<Entry>, e: Entry, c: Channel)
    ensures EventsOn(log + [e], c) ==
            EventsOn(log, c) + (if e.Line? && e.channel == c && e.text.OneEvent? then [e.text.event] else [])
  {
    assert (log + [e])[..|log|] == log;
  }

  class Terminal {
    var log: seq<Entry>

    constructor ()
      ensures log == []
    {
      log := [];
    }

    method Put(e: Entry)
      modifies this
      ensures log == old(log) + [e]
      ensures !(e.Line? && e.text.OneEvent?) ==> forall c :: EventsOn(log, c) == EventsOn(old(log), c)
    {
      forall c { EventsOnLast(log, e, c); }
      log := log + [e];
    }

    ghost predicate Recorded()
      reads this
    {
      |log| >= 2 && log[0] == Wrote && log[1] == ReadBack && RecordFirst(log)
    }

    method PrintEvent(c: Channel, event: Event)
      requires Recorded()
      modifies this
      ensures Recorded()
      ensures forall d :: Line(d, Numbers) in log <==> Line(d, Numbers) in old(log)
      ensures EventsOn(log, c) == EventsOn(old(log), c) + [event]
      ensures forall d :: d != c ==> EventsOn(log, d) == EventsOn(old(log), d)
    {
      var e := Line(c, OneEvent(event));
      forall d { EventsOnLast(log, e, d); }
      log := log + [e];
    }

    /** `printEvents`: every event, in order, on the one channel. */
    method PrintEvents(c: Channel, events: seq<Event>)
      requires Recorded()
      modifies this
      ensures Recorded()
      ensures forall d :: Line(d, Numbers) in log <==> Line(d, Numbers) in old(log)
      ensures EventsOn(log, c) == EventsOn(old(log), c) + events
      ensures forall d :: d != c ==> EventsOn(log, d) == EventsOn(old(log), d)
    {
      for k := 0 to |events|
        invariant Recorded()
        invariant forall d :: Line(d, Numbers) in log <==> Line(d, Numbers) in old(log)
        invariant EventsOn(log, c) == EventsOn(old(log), c) + events[..k]
        invariant forall d :: d != c ==> EventsOn(log, d) == EventsOn(old(log), d)
      {
        PrintEvent(c, events[k]);
        assert events[..k + 1] == events[..k] + [events[k]];
      }
      assert events[..|events|] == events;
    }

    /** The figures, or the notice that a preview withholds them. */
    method PrintNumbers(c: Channel, r: RunReport, passed: bool)
      requires Recorded() && forall d :: Line(d, Numbers) !in log
      modifies this
      ensures Recorded() && forall d :: EventsOn(log, d) == EventsOn(old(log), d)
      ensures forall d :: Line(d, Numbers) in log <==> d == c && r.hasResult && passed && !r.preview
    {
      if r.hasResult && passed && !r.preview {
        Put(Line(c, Numbers));
      } else if r.hasResult && passed {
        Put(Line(c, NumbersWithheld));
      }
      Put(Line(c, Count(|r.events|)));
    }

    /** Everything between the read-back and the closing banner. */
    method Publish(r: RunReport, passed: bool, readable: bool) returns (publish: Channel)
      requires log == [Wrote, ReadBack]
      modifies this
      ensures publish == if readable then Stdout else Stderr
      ensures Recorded()
      ensures forall d :: Line(d, Numbers) in log <==> d == publish && r.hasResult && passed && !r.preview
      ensures EventsOn(log, publish) == if r.preview then [] else r.events
      ensures forall d :: d != publish ==> EventsOn(log, d) == []
    {
      publish := Stdout;
      forall d ensures EventsOn(log, d) == [] {
        EventsOnLast([], Wrote, d);
        EventsOnLast([Wrote], ReadBack, d);
        assert [Wrote] + [ReadBack] == log && [] + [Wrote] == [Wrote];
      }
      Put(Line(Stderr, RecordPath));
      if !readable {
        publish := Stderr;
        Put(Line(Stderr, Unreadable));
      }
      PrintNumbers(publish, r, passed);
      if r.preview {
        Put(Line(publish, EventsWithheld));
      } else {
        PrintEvents(publish, r.events);
      }
    }

    /**
      `reportRun`: the exit code is zero exactly for a passed run whose record was written and reads back;
      figures and events reach standard output only for such a record, never for a preview, and only after
      the record is durable; a record that does not read back diverts them instead of losing them.
     */
    method ReportRun(r: RunReport, written: bool, readable: bool) returns (exit: nat)
      requires log == []
      modifies this
      ensures exit == 0 <==> r.outcome.disposition == ChecksPassed && written && readable
      ensures RecordFirst(log)
      ensures Line(Stdout, Numbers) in log <==>
                r.hasResult && r.outcome.disposition == ChecksPassed && written && readable && !r.preview
      ensures Line(Stderr, Numbers) in log <==>
                r.hasResult && r.outcome.disposition == ChecksPassed && written && !readable && !r.preview
      ensures EventsOn(log, Stdout) == if written && readable && !r.preview then r.events else []
      ensures EventsOn(log, Stderr) == if written && !readable && !r.preview then r.events else []
      ensures r.preview ==> Line(Stdout, Banner) in log
    {
      var o := Classified(r.outcome);
      if written {
        Put(Wrote);
        Put(ReadBack);
        assert log == [Wrote, ReadBack];
        var _ := Publish(r, o.disposition == ChecksPassed, readable);
      }
      if r.preview {
        Put(Line(Stdout, Banner));
      }
      if !written {
        Put(Line(Stderr, NotPersisted));
        Put(Line(Stderr, Failed(o.disposition)));
        return 1;
      }
      if o.disposition != ChecksPassed {
        Put(Line(Stderr, Failed(o.disposition)));
      }
      exit := if o.disposition != ChecksPassed || !readable then 1 else 0;
    }
  }

  method RunOnce(env: Env) returns (o: Outcome, result: bool)
    ensures o.disposition != Unset && (result <==> AllClear(env))
    ensures o.disposition == ChecksPassed <==> AllClear(env)
  {
    var run := new Runner(env);
    run.Run();
    o, result := run.o, run.result;
  }

  /**
    The whole process: exit code zero means that nothing in the run failed, that the worker was proven
    restored, that the device evidence asked for is there, and that the record of it is on disk and readable.
   */
  method RunAndReport(env: Env, events: seq<Event>, deviceUse: bool, required: bool, preview: bool,
                      written: bool, readable: bool)
    returns (exit: nat, log: seq<Entry>)
    ensures exit == 0 <==> AllClear(env) && (required ==> deviceUse) && written && readable
    ensures Line(Stdout, Numbers) in log <==> exit == 0 && !preview
    ensures RecordFirst(log)
  {
    var chosen, result := RunOnce(env);
    var m := if result then Some(Measurement(deviceUse)) else None;
    var o := RequireDeviceEvidence(chosen, m, required);
    var terminal := new Terminal();
    exit := terminal.ReportRun(RunReport(o, events, result, preview), written, readable);
    log := terminal.log;
  }
}
