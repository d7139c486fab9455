/**
 * The toast component's pure parts (`AppToast.tsx`): the icon for each toast
 * type and `pastTimeType`, which names the unit of the time elapsed since a
 * message was raised. `Date.now()` is the parameter `nowMs`.
 */
module AppToast {

  /** `AppToastType`. */
  datatype AppToastType = Success | Warning | Failure

  /** `iconMap`: one icon per type. */
  function IconMap(t: AppToastType): string {
    match t
    case Success => "thumbs-up"
    case Warning => "warning"
    case Failure => "circle-xmark"
  }

  /** Different types show different icons. */
  lemma IconMapInjective(a: AppToastType, b: AppToastType)
    ensures IconMap(a) == IconMap(b) <==> a == b
  {
    match a
    case Success =>
    case Warning =>
    case Failure =>
  }

  /** The units `pastTimeType` can answer, in increasing size. */
  datatype PastTimeUnit = Seconds | Minutes | Hours | Days {
    function Rank(): nat {
      match this
      case Seconds => 0
      case Minutes => 1
      case Hours => 2
      case Days => 3
    }

    /** The text the component shows before "ago". */
    function Label(): string {
      match this
      case Seconds => "seconds"
      case Minutes => "minutes"
      case Hours => "hours"
      case Days => "days"
    }
  }

  /** `timeMap`, in the order `Object.entries` yields integer keys: ascending. */
  const TIME_MAP: seq<(int, PastTimeUnit)> := [(60, Seconds), (3600, Minutes), (86400, Hours)]

  /** `Math.floor((Date.now() - timestamp) / 1000)`, exact for negative differences too. */
  function ElapsedSeconds(nowMs: int, timestampMs: int): (s: int)
    ensures s * 1000 <= nowMs - timestampMs < s * 1000 + 1000
  {
    (nowMs - timestampMs) / 1000
  }

  /** The unit for an elapsed time, by threshold. */
  function Bucket(seconds: int): PastTimeUnit {
    if seconds < 60 then Seconds
    else if seconds < 3600 then Minutes
    else if seconds < 86400 then Hours
    else Days
  }

  /** `pastTimeType(timestamp)`: the first breakpoint the elapsed seconds stay under, or days. */
  method PastTimeType(nowMs: int, timestampMs: int) returns (unit: PastTimeUnit)
    ensures unit == Bucket(ElapsedSeconds(nowMs, timestampMs))
  {
    var secondsPast := ElapsedSeconds(nowMs, timestampMs);
    var i := 0;
    while i < |TIME_MAP|
      invariant 0 <= i <= |TIME_MAP|
      invariant forall j :: 0 <= j < i ==> secondsPast >= TIME_MAP[j].0
    {
      var (breakpoint, pastTimeType) := TIME_MAP[i];
      if secondsPast < breakpoint {
        assert i > 0 ==> secondsPast >= TIME_MAP[i - 1].0;
        return pastTimeType;
      }
      i := i + 1;
    }
    assert secondsPast >= TIME_MAP[2].0;
    return Days;
  }

  /** Each unit covers exactly its range of elapsed seconds. */
  lemma BucketRanges(seconds: int)
    ensures Bucket(seconds) == Seconds <==> seconds < 60
    ensures Bucket(seconds) == Minutes <==> 60 <= seconds < 3600
    ensures Bucket(seconds) == Hours <==> 3600 <= seconds < 86400
    ensures Bucket(seconds) == Days <==> 86400 <= seconds
  {
  }

  /** A timestamp in the future gives a negative elapsed time, shown as seconds. */
  lemma FutureTimestampIsSeconds(nowMs: int, timestampMs: int)
    requires timestampMs > nowMs
    ensures ElapsedSeconds(nowMs, timestampMs) < 0
    ensures Bucket(ElapsedSeconds(nowMs, timestampMs)) == Seconds
  {
  }

  /** The unit never shrinks as the clock advances. */
  lemma UnitMonotone(nowMs: int, laterMs: int, timestampMs: int)
    requires nowMs <= laterMs
    ensures Bucket(ElapsedSeconds(nowMs, timestampMs)).Rank() <= Bucket(ElapsedSeconds(laterMs, timestampMs)).Rank()
  {
    var a := ElapsedSeconds(nowMs, timestampMs);
    var b := ElapsedSeconds(laterMs, timestampMs);
    assert a <= b;
  }
}
