/** Readings, commissioning snapshots and the feed of latest readings the selectors look at. */
module Telemetry {
  import opened Prelude

  datatype DataQuality = Good | Estimated | Uncertain | Bad

  // An ISO timestamp on the wire, as `Date.parse` sees it.
  datatype Stamp = Unparseable | At(ms: int)

  datatype Reading = Reading(ts: Stamp, job: string, tag: string, value: Option<real>, unit: string,
                             quality: DataQuality, seqNo: Option<int>)

  datatype Thresholds = Thresholds(warningLow: Option<real>, warningHigh: Option<real>,
                                   alarmLow: Option<real>, alarmHigh: Option<real>)

  datatype Override = Override(delayedAfterSec: Option<real>, staleAfterSec: Option<real>,
                               offlineAfterSec: Option<real>)

  datatype Mapping = Mapping(sensorId: string, tag: string, enabled: bool)

  datatype Snapshot = Snapshot(sensors: seq<Mapping>, thresholds: map<string, Thresholds>,
                               staleTimings: map<string, Override>)

  datatype ActiveJob = ActiveJob(jobId: string, wellId: string, snapshot: Snapshot)

  function TagKey(job: string, tag: string): string { job + "#" + tag }

  // The latest reading per tag key: what `getLatestReading` answers from.
  type Feed = map<string, Reading>

  function LatestReading(feed: Feed, job: string, tag: string): Option<Reading> {
    if TagKey(job, tag) in feed then Some(feed[TagKey(job, tag)]) else None
  }

  /** Keys of job ids free of '#' determine job and tag. */
  lemma TagKeyIsInjective(job: string, tag: string, job': string, tag': string)
    requires '#' !in job && '#' !in job'
    ensures TagKey(job, tag) == TagKey(job', tag') <==> job == job' && tag == tag'
  {
    if TagKey(job, tag) == TagKey(job', tag') {
      var key := TagKey(job, tag);
      assert key[|job|] == '#' && key[|job'|] == '#';
      assert forall i :: 0 <= i < |job| ==> key[i] == job[i];
      assert forall i :: 0 <= i < |job'| ==> key[i] == job'[i];
      assert |job| == |job'|;
      assert job == key[..|job|] == job';
      assert tag == key[|job| + 1..] == tag';
    }
  }

  /** In general, two job ids share a key for some pair of tags exactly when one of them,
      with its '#', begins the other with its '#'. */
  lemma JobsCollideExactlyWhenPrefixed(job: string, job': string)
    ensures (exists tag, tag' :: TagKey(job, tag) == TagKey(job', tag')) <==>
            (job + "#" <= job' + "#" || job' + "#" <= job + "#")
  {
    var a, b := job + "#", job' + "#";
    if tag, tag' :| TagKey(job, tag) == TagKey(job', tag') {
      var key := TagKey(job, tag);
      assert a <= key && b <= key;
    }
    if a <= b {
      assert TagKey(job, b[|a|..]) == TagKey(job', "");
    }
    if b <= a {
      assert TagKey(job, "") == TagKey(job', a[|b|..]);
    }
  }
}
