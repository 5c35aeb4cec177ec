/**
  * getWeeksInPeriod (src/app/page.tsx): the days of a period, in order, cut into runs of
  * consecutive entries that share a Monday week start. The grouping is stated for any key
  * function; getWeeksInPeriod uses the week start.
  */
module WeekBuckets {
  import opened Wrappers
  import opened WeekDates

  /** The buckets laid end to end. */
  function Flatten(weeks: seq<seq<int>>): seq<int> {
    if weeks == [] then [] else Flatten(weeks[..|weeks| - 1]) + weeks[|weeks| - 1]
  }

  /**
    * The grouping getWeeksInPeriod computes, one day at a time: a day joins the last
    * bucket when it has the key of that bucket's first day, else it opens a new bucket.
    */
  function RunsBy(dates: seq<int>, key: int -> int): (weeks: seq<seq<int>>)
    ensures |weeks| <= |dates| && (weeks == [] <==> dates == [])
    ensures forall i :: 0 <= i < |weeks| ==> weeks[i] != []
    decreases |dates|
  {
    if dates == [] then []
    else
      var prev, d := RunsBy(dates[..|dates| - 1], key), dates[|dates| - 1];
      if prev != [] && key(prev[|prev| - 1][0]) == key(d) then
        prev[..|prev| - 1] + [prev[|prev| - 1] + [d]]
      else
        prev + [[d]]
  }

  /** The result of getWeeksInPeriod: runs of days with one week start. */
  function WeeksOf(dates: seq<int>): seq<seq<int>> {
    RunsBy(dates, GetWeekStart)
  }

  /** The buckets pushed so far, followed by the one being filled when it is not empty. */
  function Pending(weeks: seq<seq<int>>, currentWeek: seq<int>): seq<seq<int>> {
    if currentWeek == [] then weeks else weeks + [currentWeek]
  }

  /** An entry with another key than the bucket being filled opens a new bucket. */
  lemma OpenRun(dates: seq<int>, i: int, weeks: seq<seq<int>>, currentRun: seq<int>, key: int -> int)
    requires 0 <= i < |dates| && (currentRun == [] <==> i == 0)
    requires Pending(weeks, currentRun) == RunsBy(dates[..i], key)
    requires currentRun != [] ==> key(currentRun[0]) != key(dates[i])
    ensures Pending(Pending(weeks, currentRun), [dates[i]]) == RunsBy(dates[..i + 1], key)
  {
    assert dates[..i + 1][..i] == dates[..i];
    RunsStep(dates[..i + 1], key);
  }

  /** An entry with the key of the bucket being filled joins it. */
  lemma JoinRun(dates: seq<int>, i: int, weeks: seq<seq<int>>, currentRun: seq<int>, key: int -> int)
    requires 0 <= i < |dates| && currentRun != []
    requires Pending(weeks, currentRun) == RunsBy(dates[..i], key)
    requires key(currentRun[0]) == key(dates[i])
    ensures Pending(weeks, currentRun + [dates[i]]) == RunsBy(dates[..i + 1], key)
  {
    assert dates[..i + 1][..i] == dates[..i];
    RunsStep(dates[..i + 1], key);
    var prev := RunsBy(dates[..i], key);
    assert prev[..|prev| - 1] == weeks && prev[|prev| - 1] == currentRun;
  }

  /** getWeeksInPeriod: the forEach that fills `currentWeek` and pushes it into `weeks`. */
  method GetWeeksInPeriod(dates: seq<int>) returns (weeks: seq<seq<int>>)
    ensures weeks == WeeksOf(dates)
  {
    weeks := [];
    var currentWeek: seq<int> := [];
    var currentWeekStart: Option<int> := None;
    for i := 0 to |dates|
      invariant currentWeek == [] <==> i == 0
      invariant currentWeekStart == if currentWeek == [] then None else Some(GetWeekStart(currentWeek[0]))
      invariant Pending(weeks, currentWeek) == WeeksOf(dates[..i])
    {
      var date := dates[i];
      var weekStart := GetWeekStart(date);
      if currentWeekStart != Some(weekStart) {
        OpenRun(dates, i, weeks, currentWeek, GetWeekStart);
        if |currentWeek| > 0 {
          weeks := weeks + [currentWeek];
        }
        currentWeek := [date];
        currentWeekStart := Some(weekStart);
      } else {
        JoinRun(dates, i, weeks, currentWeek, GetWeekStart);
        currentWeek := currentWeek + [date];
      }
    }
    assert dates[..|dates|] == dates;
    if |currentWeek| > 0 {
      weeks := weeks + [currentWeek];
    }
  }

  /** Every entry of the bucket has the key of its first entry. */
  predicate OneKey(bucket: seq<int>, key: int -> int)
    requires bucket != []
  {
    forall j :: 0 <= j < |bucket| ==> key(bucket[j]) == key(bucket[0])
  }

  /** Entries that all share one key form a single bucket. */
  lemma {:induction false} SingleRun(dates: seq<int>, key: int -> int)
    requires dates != [] && OneKey(dates, key)
    ensures RunsBy(dates, key) == [dates]
    decreases |dates|
  {
    var init, d := dates[..|dates| - 1], dates[|dates| - 1];
    if init != [] {
      OneKeyInit(dates, key);
      SingleRun(init, key);
      UniqueStepMany([], init, dates, key);
      assert init + [d] == dates;
    } else {
      UniqueStepSingle([], dates, key);
      assert dates == [d];
    }
  }

  /** Without its last entry, a one-key bucket keeps one key, the key of that entry. */
  lemma OneKeyInit(dates: seq<int>, key: int -> int)
    requires |dates| > 1 && OneKey(dates, key)
    ensures var init := dates[..|dates| - 1];
      OneKey(init, key) && key(init[0]) == key(dates[|dates| - 1])
  {
    var init := dates[..|dates| - 1];
    forall j | 0 <= j < |init|
      ensures key(init[j]) == key(init[0])
    {
      assert init[j] == dates[j] && init[0] == dates[0];
    }
  }

  /** None of the buckets is empty and each has one key. */
  predicate AllOneKey(weeks: seq<seq<int>>, key: int -> int) {
    forall i :: 0 <= i < |weeks| ==> weeks[i] != [] && OneKey(weeks[i], key)
  }

  /** Two neighbouring buckets have different keys. */
  predicate NeighboursDiffer(weeks: seq<seq<int>>, key: int -> int)
    requires forall i :: 0 <= i < |weeks| ==> weeks[i] != []
  {
    forall i :: 0 < i < |weeks| ==> key(weeks[i - 1][0]) != key(weeks[i][0])
  }

  /**
    * The buckets give back the entries in order, none is empty, each has one key, and
    * two neighbouring buckets have different keys.
    */
  predicate IsRunPartition(weeks: seq<seq<int>>, dates: seq<int>, key: int -> int) {
    Flatten(weeks) == dates && AllOneKey(weeks, key) && NeighboursDiffer(weeks, key)
  }

  /** The buckets are the days in order, cut into non-empty runs of one week each. */
  predicate IsWeekPartition(weeks: seq<seq<int>>, dates: seq<int>) {
    IsRunPartition(weeks, dates, GetWeekStart)
  }

  lemma FlattenSnoc(weeks: seq<seq<int>>, b: seq<int>)
    ensures Flatten(weeks + [b]) == Flatten(weeks) + b
  {
    assert (weeks + [b])[..|weeks|] == weeks;
  }

  /** The last step of RunsBy: the new entry either extends the last bucket or opens one. */
  lemma RunsStep(dates: seq<int>, key: int -> int)
    requires dates != []
    ensures var prev, d := RunsBy(dates[..|dates| - 1], key), dates[|dates| - 1];
      var joins := prev != [] && key(prev[|prev| - 1][0]) == key(d);
      && (joins ==> RunsBy(dates, key) == prev[..|prev| - 1] + [prev[|prev| - 1] + [d]])
      && (!joins ==> RunsBy(dates, key) == prev + [[d]])
  {}

  /** Laid end to end, the buckets give back the entries in order. */
  lemma {:induction false} RunsFlatten(dates: seq<int>, key: int -> int)
    ensures Flatten(RunsBy(dates, key)) == dates
    decreases |dates|
  {
    if dates != [] {
      var init, d := dates[..|dates| - 1], dates[|dates| - 1];
      var prev := RunsBy(init, key);
      RunsFlatten(init, key);
      RunsStep(dates, key);
      assert init + [d] == dates;
      if prev != [] && key(prev[|prev| - 1][0]) == key(d) {
        var front, last := prev[..|prev| - 1], prev[|prev| - 1];
        assert prev == front + [last];
        FlattenSnoc(front, last);
        FlattenSnoc(front, last + [d]);
      } else {
        FlattenSnoc(prev, [d]);
      }
    }
  }

  /** Each bucket has one key. */
  lemma {:induction false} RunsOneKey(dates: seq<int>, key: int -> int)
    ensures AllOneKey(RunsBy(dates, key), key)
    decreases |dates|
  {
    if dates != [] {
      var init, d := dates[..|dates| - 1], dates[|dates| - 1];
      var prev := RunsBy(init, key);
      RunsOneKey(init, key);
      RunsStep(dates, key);
      if prev != [] && key(prev[|prev| - 1][0]) == key(d) {
        var last := prev[|prev| - 1];
        assert OneKey(last, key);
        assert OneKey(last + [d], key);
      }
    }
  }

  /** Neighbouring buckets have different keys. */
  lemma {:induction false} RunsNeighbours(dates: seq<int>, key: int -> int)
    ensures NeighboursDiffer(RunsBy(dates, key), key)
    decreases |dates|
  {
    if dates != [] {
      var init, d := dates[..|dates| - 1], dates[|dates| - 1];
      var prev := RunsBy(init, key);
      RunsNeighbours(init, key);
      RunsStep(dates, key);
      var w := RunsBy(dates, key);
      if prev != [] && key(prev[|prev| - 1][0]) == key(d) {
        assert |w| == |prev|;
        forall i | 0 < i < |w|
          ensures key(w[i - 1][0]) != key(w[i][0])
        {
          assert w[i - 1][0] == prev[i - 1][0] && w[i][0] == prev[i][0];
        }
      } else {
        assert w == prev + [[d]];
        forall i | 0 < i < |w|
          ensures key(w[i - 1][0]) != key(w[i][0])
        {
          assert w[i - 1] == prev[i - 1];
        }
      }
    }
  }

  /** A partition whose last bucket is a single entry, without that bucket. */
  lemma PartitionDropLast(weeks: seq<seq<int>>, dates: seq<int>, key: int -> int)
    requires IsRunPartition(weeks, dates, key) && weeks != [] && |weeks[|weeks| - 1]| == 1
    ensures dates != [] && weeks[|weeks| - 1] == [dates[|dates| - 1]]
    ensures IsRunPartition(weeks[..|weeks| - 1], dates[..|dates| - 1], key)
  {
    var front, last := weeks[..|weeks| - 1], weeks[|weeks| - 1];
    assert weeks == front + [last];
    FlattenSnoc(front, last);
    assert last == [last[0]];
    assert AllOneKey(front, key);
    assert NeighboursDiffer(front, key);
  }

  /** A partition whose last bucket holds several entries, without its last entry. */
  lemma PartitionShrinkLast(weeks: seq<seq<int>>, dates: seq<int>, key: int -> int)
    requires IsRunPartition(weeks, dates, key) && weeks != [] && |weeks[|weeks| - 1]| > 1
    ensures dates != [] && weeks[|weeks| - 1][|weeks[|weeks| - 1]| - 1] == dates[|dates| - 1]
    ensures var last := weeks[|weeks| - 1];
      IsRunPartition(weeks[..|weeks| - 1] + [last[..|last| - 1]], dates[..|dates| - 1], key)
  {
    var front, last := weeks[..|weeks| - 1], weeks[|weeks| - 1];
    var shorter := last[..|last| - 1];
    var weeks' := front + [shorter];
    assert weeks == front + [last];
    FlattenSnoc(front, last);
    FlattenSnoc(front, shorter);
    assert last == shorter + [last[|last| - 1]];
    assert OneKey(shorter, key);
    assert AllOneKey(weeks', key);
    assert NeighboursDiffer(weeks', key);
  }

  /** Uniqueness, one step: a single-entry last bucket is the entry that opened a new key. */
  lemma UniqueStepSingle(front: seq<seq<int>>, dates: seq<int>, key: int -> int)
    requires dates != [] && front == RunsBy(dates[..|dates| - 1], key)
    requires front != [] ==> front[|front| - 1] != [] && key(front[|front| - 1][0]) != key(dates[|dates| - 1])
    ensures front + [[dates[|dates| - 1]]] == RunsBy(dates, key)
  {
    RunsStep(dates, key);
  }

  /** The last entry joins the last bucket when it has that bucket's key. */
  lemma UniqueStepMany(front: seq<seq<int>>, shorter: seq<int>, dates: seq<int>, key: int -> int)
    requires dates != [] && shorter != [] && front + [shorter] == RunsBy(dates[..|dates| - 1], key)
    requires key(shorter[0]) == key(dates[|dates| - 1])
    ensures front + [shorter + [dates[|dates| - 1]]] == RunsBy(dates, key)
  {
    var prev := front + [shorter];
    RunsStep(dates, key);
    assert prev[..|prev| - 1] == front && prev[|prev| - 1] == shorter;
  }

  /** The partition into runs of one key is unique: it is the one RunsBy computes. */
  lemma {:induction false} PartitionUnique(weeks: seq<seq<int>>, dates: seq<int>, key: int -> int)
    requires IsRunPartition(weeks, dates, key)
    ensures weeks == RunsBy(dates, key)
    decreases |dates|
  {
    if weeks == [] {
      assert dates == [];
    } else {
      var front, last := weeks[..|weeks| - 1], weeks[|weeks| - 1];
      assert AllOneKey(weeks, key);
      var init := dates[..|dates| - 1];
      assert weeks == front + [last];
      if |last| == 1 {
        PartitionDropLast(weeks, dates, key);
        PartitionUnique(front, init, key);
        if front != [] {
          assert NeighboursDiffer(weeks, key) && weeks[|weeks| - 2] == front[|front| - 1];
        }
        UniqueStepSingle(front, dates, key);
      } else {
        var shorter := last[..|last| - 1];
        PartitionShrinkLast(weeks, dates, key);
        PartitionUnique(front + [shorter], init, key);
        assert OneKey(last, key);
        UniqueStepMany(front, shorter, dates, key);
        assert last == shorter + [dates[|dates| - 1]];
      }
    }
  }

  /**
    * getWeeksInPeriod partitions its input into week runs, and that partition is the only
    * one: being its result and being such a partition are the same.
    */
  lemma WeekPartitionIff(weeks: seq<seq<int>>, dates: seq<int>)
    ensures IsWeekPartition(WeeksOf(dates), dates)
    ensures IsWeekPartition(weeks, dates) <==> weeks == WeeksOf(dates)
  {
    RunsFlatten(dates, GetWeekStart);
    RunsOneKey(dates, GetWeekStart);
    RunsNeighbours(dates, GetWeekStart);
    if IsWeekPartition(weeks, dates) {
      PartitionUnique(weeks, dates, GetWeekStart);
    }
  }
}
