/**
 * The process-wide meter registry the filter reports to, reduced to what the
 * filter can observe: a meter is found or created by its name, and recording
 * into it appends one value. Aggregation, percentiles and export belong to the
 * registry library and are not part of this model.
 */
module Metrics {

  /** One call `meter(name).record(value)`. */
  datatype Recording = Recording(name: string, value: int)

  /** What a name's meter holds so far; a name never looked up holds nothing. */
  function Values(meters: map<string, seq<int>>, name: string): seq<int> {
    if name in meters then meters[name] else []
  }

  /** The registry after one recording: lookup-or-create, then append. */
  function Apply(meters: map<string, seq<int>>, rec: Recording): map<string, seq<int>> {
    meters[rec.name := Values(meters, rec.name) + [rec.value]]
  }

  /** The registry after a sequence of recordings, made in order. */
  function ApplyAll(meters: map<string, seq<int>>, recs: seq<Recording>): map<string, seq<int>>
  {
    if recs == [] then meters
    else Apply(ApplyAll(meters, recs[..|recs| - 1]), recs[|recs| - 1])
  }

  /** The values that `recs` records under `name`, in the order recorded. */
  function RecordedUnder(recs: seq<Recording>, name: string): seq<int> {
    if recs == [] then []
    else
      var last := recs[|recs| - 1];
      RecordedUnder(recs[..|recs| - 1], name) + (if last.name == name then [last.value] else [])
  }

  /** The names `recs` records under. */
  function Names(recs: seq<Recording>): set<string> {
    set i | 0 <= i < |recs| :: recs[i].name
  }

  /**
   * After a sequence of recordings every meter holds what it held before
   * followed by exactly the values recorded under its name.
   */
  lemma {:induction false} ApplyAllValues(meters: map<string, seq<int>>, recs: seq<Recording>, name: string)
    ensures Values(ApplyAll(meters, recs), name) == Values(meters, name) + RecordedUnder(recs, name)
  {
    if recs != [] {
      ApplyAllValues(meters, recs[..|recs| - 1], name);
    }
  }

  /** The meters that exist after a sequence of recordings are the old ones plus those named. */
  lemma {:induction false} ApplyAllKeys(meters: map<string, seq<int>>, recs: seq<Recording>)
    ensures ApplyAll(meters, recs).Keys == meters.Keys + Names(recs)
  {
    if recs != [] {
      var init := recs[..|recs| - 1];
      var last := recs[|recs| - 1];
      ApplyAllKeys(meters, init);
      assert Names(recs) == Names(init) + {last.name} by {
        forall n | n in Names(recs) ensures n in Names(init) + {last.name} {
          var i :| 0 <= i < |recs| && recs[i].name == n;
          if i < |recs| - 1 { assert init[i] == recs[i]; }
        }
        forall n | n in Names(init) ensures n in Names(recs) {
          var i :| 0 <= i < |init| && init[i].name == n;
          assert recs[i] == init[i];
        }
      }
    }
  }

  /** Recording `a` and then `b` is recording `a + b`. */
  lemma {:induction false} ApplyAllConcat(meters: map<string, seq<int>>, a: seq<Recording>, b: seq<Recording>)
    ensures ApplyAll(meters, a + b) == ApplyAll(ApplyAll(meters, a), b)
    decreases |b|
  {
    if b == [] {
      assert a + b == a;
    } else {
      var init := b[..|b| - 1];
      assert (a + b)[..|a + b| - 1] == a + init;
      ApplyAllConcat(meters, a, init);
    }
  }

  /** Recording a concatenation records each part's values in turn. */
  lemma {:induction false} RecordedUnderAppend(a: seq<Recording>, b: seq<Recording>, name: string)
    ensures RecordedUnder(a + b, name) == RecordedUnder(a, name) + RecordedUnder(b, name)
    decreases |b|
  {
    if b == [] {
      assert a + b == a;
    } else {
      var init := b[..|b| - 1];
      assert (a + b)[..|a + b| - 1] == a + init;
      RecordedUnderAppend(a, init, name);
    }
  }

  /** A name is among those recorded under exactly when some value is recorded under it. */
  lemma {:induction false} NamesByRecordedUnder(recs: seq<Recording>, name: string)
    ensures name in Names(recs) <==> RecordedUnder(recs, name) != []
  {
    if recs != [] {
      var init := recs[..|recs| - 1];
      NamesByRecordedUnder(init, name);
      if name in Names(init) {
        var i :| 0 <= i < |init| && init[i].name == name;
        assert recs[i] == init[i];
      }
      if name in Names(recs) && recs[|recs| - 1].name != name {
        var i :| 0 <= i < |recs| && recs[i].name == name;
        assert init[i] == recs[i];
      }
    }
  }

  /** A name no recording mentions keeps its meter, and its absence, untouched. */
  lemma ApplyAllFrame(meters: map<string, seq<int>>, recs: seq<Recording>, name: string)
    requires name !in Names(recs)
    ensures Values(ApplyAll(meters, recs), name) == Values(meters, name)
    ensures name in ApplyAll(meters, recs) <==> name in meters
  {
    ApplyAllValues(meters, recs, name);
    ApplyAllKeys(meters, recs);
    NamesByRecordedUnder(recs, name);
  }

  /** The registry: meters found or created by name. */
  class MeterRegistry {
    var meters: map<string, seq<int>>

    constructor ()
      ensures meters == map[]
    {
      meters := map[];
    }

    /** `summary(name)` / `timer(name)`: find the meter, creating it empty if absent. */
    method Register(name: string)
      modifies this
      ensures meters == old(meters)[name := Values(old(meters), name)]
    {
      meters := meters[name := Values(meters, name)];
    }

    /** `meter(name).record(value)`, with the meter found or created by name. */
    method Record(name: string, value: int)
      modifies this
      ensures meters == Apply(old(meters), Recording(name, value))
    {
      meters := meters[name := Values(meters, name) + [value]];
    }
  }
}
