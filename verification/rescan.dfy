/**
 * What a rescan timer does when it fires: `detect` with the fingerprints
 * its setup call captured, on the page as it is at that moment, and the
 * callback, if one was given, with the results.
 */
module Rescan {
  import opened Wrappers
  import opened Patterns
  import opened Catalog
  import opened Results
  import opened Detector
  import opened Debounce

  /** The arguments of `setupMutationObserver`: the fingerprints, and whether a callback was given. */
  datatype Job = Job(fps: seq<Fingerprint>, hasCallback: bool)

  /** A timer that fired: what `detect` returned and what the callback received, if it was called. */
  datatype Firing = Firing(sub: nat, at: int, outcome: Result<seq<TechResult>, CompileError>,
                           delivered: Option<seq<TechResult>>)

  /**
   * The timer callback. An error thrown by `detect` escapes the callback,
   * so the callback is called only when detection returned.
   */
  function Fire(eng: RegexEngine, pageAt: int -> Page, tm: Timer<Job>): (f: Firing)
    ensures f.sub == tm.sub && f.at == tm.due
    ensures f.outcome.Err? <==> PassHits(eng, tm.job.fps, pageAt(tm.due)).Err?
    ensures f.delivered.Some? <==> tm.job.hasCallback && f.outcome.Ok?
    ensures f.delivered.Some? ==> f.delivered.value == f.outcome.value
  {
    var outcome := Detect(eng, tm.job.fps, pageAt(tm.due));
    Firing(tm.sub, tm.due, outcome, if tm.job.hasCallback && outcome.Ok? then Some(outcome.value) else None)
  }

  /**
   * A burst of mutations less than two seconds apart, observed with nothing
   * pending, ends in one detection only: two seconds after the last
   * mutation, with the fingerprints the setup captured, on the page as it is
   * then; the callback sees its results when it was given and detection
   * returned.
   */
  lemma BurstDetectsOnce(eng: RegexEngine, pageAt: int -> Page, c: Controller<Job>, o: Observer<Job>,
                         inputs: seq<Input<Job>>, t: int)
    requires c.observer == Some(o) && c.pending == []
    requires |inputs| > 0 && Burst(inputs)
    requires inputs[|inputs| - 1].at + DebounceMs <= t
    ensures var (c1, during) := Run(c, inputs);
      var fired := Advance(c1, t).1;
      var at := inputs[|inputs| - 1].at + DebounceMs;
      && during == [] && |fired| == 1
      && Fire(eng, pageAt, fired[0]).at == at
      && Fire(eng, pageAt, fired[0]).outcome == Detect(eng, o.job.fps, pageAt(at))
      && (Fire(eng, pageAt, fired[0]).delivered.Some? <==> o.job.hasCallback && Detect(eng, o.job.fps, pageAt(at)).Ok?)
  {
    BurstFiresOnce(c, o, inputs, t);
  }

  /**
   * Two bursts separated by at least two seconds of quiet detect twice:
   * once two seconds after the first burst's last mutation, on the page as
   * it is then, and once two seconds after the second burst's.
   */
  lemma TwoBurstsDetectTwice(eng: RegexEngine, pageAt: int -> Page, c: Controller<Job>, o: Observer<Job>,
                             b1: seq<Input<Job>>, b2: seq<Input<Job>>, t: int)
    requires c.observer == Some(o) && c.pending == []
    requires |b1| > 0 && Burst(b1) && |b2| > 0 && Burst(b2)
    requires b1[|b1| - 1].at + DebounceMs <= b2[0].at
    requires b2[|b2| - 1].at + DebounceMs <= t
    ensures var (c2, during) := Run(c, b1 + b2);
      var fired := during + Advance(c2, t).1;
      var at1 := b1[|b1| - 1].at + DebounceMs;
      var at2 := b2[|b2| - 1].at + DebounceMs;
      && |fired| == 2
      && Fire(eng, pageAt, fired[0]).at == at1
      && Fire(eng, pageAt, fired[0]).outcome == Detect(eng, o.job.fps, pageAt(at1))
      && Fire(eng, pageAt, fired[1]).at == at2
      && Fire(eng, pageAt, fired[1]).outcome == Detect(eng, o.job.fps, pageAt(at2))
  {
    TwoBurstsFireTwice(c, o, b1, b2, t);
  }
}
