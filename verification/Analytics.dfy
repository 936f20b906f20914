/** The creator's analytics panel: running totals, daily buckets and totals by wallet of
    one list of contributions, and how they agree. */
module Analytics {
  import opened Common
  import opened Grouping

  /** `at` is the time in milliseconds; the first ten characters of a UTC timestamp name
      its day. */
  datatype Contribution = Contribution(wallet: Wallet, amount: nat, at: nat)

  const MS_PER_DAY := 86_400_000

  function Day(c: Contribution): nat {
    c.at / MS_PER_DAY
  }

  /** A moment by the clock: the day, the time of day, in milliseconds. */
  function Moment(day: nat, hour: nat, minute: nat, second: nat, ms: nat): nat {
    (((day * 24 + hour) * 60 + minute) * 60 + second) * 1000 + ms
  }

  /** Contributions share a day exactly if their clocks show the same one, whatever the time
      of day. */
  lemma DayByClock(c: Contribution, day: nat, hour: nat, minute: nat, second: nat, ms: nat)
    requires hour < 24 && minute < 60 && second < 60 && ms < 1000 && c.at == Moment(day, hour, minute, second, ms)
    ensures Day(c) == day
  {
    var rest := ((hour * 60 + minute) * 60 + second) * 1000 + ms;
    assert c.at == 86_400_000 * day + rest && 0 <= rest < 86_400_000;
  }

  function Sum(s: seq<Contribution>): nat {
    if s == [] then 0 else Sum(Front(s)) + Last(s).amount
  }

  function ByDay(s: seq<Contribution>): (items: seq<Item<nat>>)
    ensures |items| == |s|
  {
    seq(|s|, i requires 0 <= i < |s| => Item(Day(s[i]), s[i].amount))
  }

  function ByWallet(s: seq<Contribution>): (items: seq<Item<Wallet>>)
    ensures |items| == |s|
  {
    seq(|s|, i requires 0 <= i < |s| => Item(s[i].wallet, s[i].amount))
  }

  predicate Chronological(s: seq<Contribution>) {
    forall i, j | 0 <= i <= j < |s| :: s[i].at <= s[j].at
  }

  // ---- The three loops ----------------------------------------------------------------

  datatype Point = Point(day: nat, amount: nat)

  /** The running total after each contribution. */
  method Cumulative(sorted: seq<Contribution>) returns (points: seq<Point>)
    ensures |points| == |sorted|
    ensures forall i | 0 <= i < |sorted| :: points[i] == Point(Day(sorted[i]), Sum(sorted[..i + 1]))
  {
    points := [];
    var running := 0;
    for n := 0 to |sorted|
      invariant |points| == n && running == Sum(sorted[..n])
      invariant forall i | 0 <= i < n :: points[i] == Point(Day(sorted[i]), Sum(sorted[..i + 1]))
    {
      assert Front(sorted[..n + 1]) == sorted[..n];
      running := running + sorted[n].amount;
      points := points + [Point(Day(sorted[n]), running)];
    }
  }

  /** One bucket for each day with contributions, earlier days first. */
  method DailyBuckets(sorted: seq<Contribution>) returns (buckets: seq<Point>)
    requires Chronological(sorted)
    ensures |buckets| == |Keys(ByDay(sorted))|
    ensures forall i | 0 <= i < |buckets| ::
      buckets[i].day == Keys(ByDay(sorted))[i] && buckets[i].amount == TotalOf(ByDay(sorted), buckets[i].day)
    ensures forall i, j | 0 <= i < j < |buckets| :: buckets[i].day < buckets[j].day
  {
    var days, totals := Accumulate(ByDay(sorted));
    DaysAscend(sorted);
    buckets := [];
    for n := 0 to |days|
      invariant |buckets| == n
      invariant forall i | 0 <= i < n :: buckets[i] == Point(days[i], TotalOf(ByDay(sorted), days[i]))
    {
      assert days[n] in totals;
      buckets := buckets + [Point(days[n], totals[days[n]])];
    }
  }

  datatype Contributor = Contributor(wallet: Wallet, total: nat)

  method TotalsByWallet(s: seq<Contribution>) returns (all: seq<Contributor>)
    ensures |all| == |Keys(ByWallet(s))|
    ensures forall i | 0 <= i < |all| ::
      all[i].wallet == Keys(ByWallet(s))[i] && all[i].total == TotalOf(ByWallet(s), all[i].wallet)
  {
    var wallets, totals := Accumulate(ByWallet(s));
    all := [];
    for n := 0 to |wallets|
      invariant |all| == n
      invariant forall i | 0 <= i < n :: all[i] == Contributor(wallets[i], TotalOf(ByWallet(s), wallets[i]))
    {
      assert wallets[n] in totals;
      all := all + [Contributor(wallets[n], totals[wallets[n]])];
    }
  }

  const TOP := 5

  lemma RestOf(ranked: seq<Contributor>, n: nat)
    requires n <= |ranked|
    ensures multiset(ranked[..n]) <= multiset(ranked)
    ensures multiset(ranked) - multiset(ranked[..n]) == multiset(ranked[n..])
  {
    assert ranked == ranked[..n] + ranked[n..];
  }

  lemma NoneBelowRest(ranked: seq<Contributor>, n: nat)
    requires n <= |ranked|
    requires forall i, j | 0 <= i < j < |ranked| :: ranked[i].total >= ranked[j].total
    ensures multiset(ranked[..n]) <= multiset(ranked)
    ensures forall x, y | x in ranked[..n] && y in multiset(ranked) - multiset(ranked[..n]) :: x.total >= y.total
  {
    RestOf(ranked, n);
    forall x, y | x in ranked[..n] && y in ranked[n..]
      ensures x.total >= y.total
    {
      var i :| 0 <= i < n && ranked[i] == x;
      var j :| 0 <= j < |ranked[n..]| && ranked[n..][j] == y;
      assert ranked[n + j] == y;
    }
  }

  /** The first five of the totals ranked in descending order. */
  method TopContributors(all: seq<Contributor>, ranked: seq<Contributor>) returns (top: seq<Contributor>)
    requires multiset(ranked) == multiset(all)
    requires forall i, j | 0 <= i < j < |ranked| :: ranked[i].total >= ranked[j].total
    ensures |top| == if |all| < 5 then |all| else 5
    ensures multiset(top) <= multiset(all)
    ensures forall x, y | x in top && y in multiset(all) - multiset(top) :: x.total >= y.total
  {
    assert |ranked| == |multiset(all)| == |all|;
    var n := if |ranked| < TOP then |ranked| else TOP;
    top := ranked[..n];
    NoneBelowRest(ranked, n);
  }

  // ---- How they agree -----------------------------------------------------------------

  predicate Ascending(days: seq<nat>) {
    forall i, j | 0 <= i < j < |days| :: days[i] < days[j]
  }

  lemma AppendDay(days: seq<nat>, day: nat)
    requires Ascending(days) && day !in days && forall d | d in days :: d <= day
    ensures Ascending(days + [day])
  {
    forall i | 0 <= i < |days|
      ensures days[i] < day
    {
      assert days[i] in days;
    }
  }

  lemma KeysGrow(s: seq<Contribution>)
    requires s != []
    ensures var earlier, day := Keys(ByDay(Front(s))), Day(Last(s));
      Keys(ByDay(s)) == if day in earlier then earlier else earlier + [day]
  {
    assert ByDay(Front(s)) == Front(ByDay(s));
  }

  /** The days of a chronological list come in ascending order. */
  lemma {:induction false} DaysAscend(s: seq<Contribution>)
    requires Chronological(s)
    ensures Ascending(Keys(ByDay(s)))
  {
    if s != [] {
      hide Ascending;
      var front := Front(s);
      DaysAscend(front);
      KeysGrow(s);
      KeysExact(ByDay(front));
      var earlier := Keys(ByDay(front));
      hide Keys;
      forall k | k in earlier
        ensures k <= Day(Last(s))
      {
        var i :| 0 <= i < |ByDay(front)| && ByDay(front)[i].key == k;
        DaysInOrder(s, i, |s| - 1);
      }
      if Day(Last(s)) !in earlier {
        AppendDay(earlier, Day(Last(s)));
      }
    } else {
      assert Keys(ByDay(s)) == [];
    }
  }

  lemma {:induction false} SameSums(s: seq<Contribution>)
    ensures Total(ByDay(s)) == Sum(s) == Total(ByWallet(s))
  {
    if s != [] {
      SameSums(Front(s));
      assert ByDay(Front(s)) == Front(ByDay(s));
      assert ByWallet(Front(s)) == Front(ByWallet(s));
    }
  }

  lemma {:induction false} SumConcat(a: seq<Contribution>, b: seq<Contribution>)
    ensures Sum(a + b) == Sum(a) + Sum(b)
  {
    if b == [] {
      assert a + b == a;
    } else {
      assert Front(a + b) == a + Front(b);
      SumConcat(a, Front(b));
    }
  }

  /** Sorting does not change the sum. */
  lemma {:induction false} SumOfPermutation(a: seq<Contribution>, b: seq<Contribution>)
    requires multiset(a) == multiset(b)
    ensures Sum(a) == Sum(b)
    decreases |a|
  {
    if a == [] {
      assert |multiset(b)| == 0;
    } else {
      var x := Last(a);
      assert a == Front(a) + [x];
      assert x in multiset(b);
      var i :| 0 <= i < |b| && b[i] == x;
      PullOut(b, i);
      hide Sum;
      SumConcat(Front(a), [x]);
      var rest := b[..i] + b[i + 1..];
      assert multiset(Front(a)) == multiset(a) - multiset{x} == multiset(rest);
      SumOfPermutation(Front(a), rest);
    }
  }

  lemma PullOutBag(b: seq<Contribution>, i: nat)
    requires i < |b|
    ensures multiset(b) == multiset(b[..i] + b[i + 1..]) + multiset{b[i]}
  {
    assert b == b[..i] + [b[i]] + b[i + 1..];
  }

  lemma PullOut(b: seq<Contribution>, i: nat)
    requires i < |b|
    ensures multiset(b) == multiset(b[..i] + b[i + 1..]) + multiset{b[i]}
    ensures Sum(b) == Sum(b[..i] + b[i + 1..]) + Sum([b[i]])
  {
    hide Sum;
    var before, after := b[..i], b[i + 1..];
    PullOutBag(b, i);
    assert b == before + ([b[i]] + after);
    SumConcat(before, [b[i]] + after);
    SumConcat([b[i]], after);
    SumConcat(before, after);
  }

  /** The three aggregations agree: the final running total, the daily buckets together and
      the totals by wallet together are one number. */
  lemma AggregationsAgree(data: seq<Contribution>, sorted: seq<Contribution>)
    requires multiset(sorted) == multiset(data)
    ensures Sum(sorted) == SumOver(ByDay(sorted), Keys(ByDay(sorted)))
    ensures Sum(sorted) == SumOver(ByWallet(data), Keys(ByWallet(data)))
  {
    SameSums(sorted);
    SameSums(data);
    SumOfPermutation(sorted, data);
    AllGroups(ByDay(sorted));
    AllGroups(ByWallet(data));
  }

  /** The days up to a given one. */
  function UpTo(days: seq<nat>, day: nat): seq<nat> {
    if days == [] then [] else UpTo(Front(days), day) + if Last(days) <= day then [Last(days)] else []
  }

  lemma {:induction false} UpToExact(days: seq<nat>, day: nat)
    requires NoRepeats(days)
    ensures NoRepeats(UpTo(days, day))
    ensures forall d :: d in UpTo(days, day) <==> d in days && d <= day
  {
    if days != [] {
      assert forall i | 0 <= i < |days| - 1 :: Front(days)[i] == days[i] != Last(days);
      var earlier := UpTo(Front(days), day);
      UpToExact(Front(days), day);
      assert days == Front(days) + [Last(days)];
      forall i | 0 <= i < |earlier|
        ensures earlier[i] != Last(days)
      {
        assert earlier[i] in earlier;
      }
    }
  }

  /** At a day's last contribution the running total is the sum of all buckets up to that
      day. */
  lemma RunningMeetsBuckets(sorted: seq<Contribution>, i: nat)
    requires Chronological(sorted) && i < |sorted|
    requires i + 1 < |sorted| ==> Day(sorted[i + 1]) != Day(sorted[i])
    ensures Sum(sorted[..i + 1]) == SumOver(ByDay(sorted), UpTo(Keys(ByDay(sorted)), Day(sorted[i])))
  {
    hide Keys;
    hide UpTo;
    hide Sum;
    var items, day := ByDay(sorted), Day(sorted[i]);
    var days := UpTo(Keys(items), day);
    KeysExact(items);
    UpToExact(Keys(items), day);
    forall j | 0 <= j < |items|
      ensures items[j].key in days <==> j < i + 1
    {
      SameDayOrEarlier(sorted, i, j);
    }
    GroupsPartition(items, days);
    FirstItemsIn(items, days, i + 1);
    assert ByDay(sorted[..i + 1]) == items[..i + 1];
    SameSums(sorted[..i + 1]);
  }

  lemma SameDayOrEarlier(sorted: seq<Contribution>, i: nat, j: nat)
    requires Chronological(sorted) && i < |sorted| && j < |sorted|
    requires i + 1 < |sorted| ==> Day(sorted[i + 1]) != Day(sorted[i])
    ensures Day(sorted[j]) <= Day(sorted[i]) <==> j <= i
  {
    hide Day;
    if j <= i {
      DaysInOrder(sorted, j, i);
    } else {
      DaysInOrder(sorted, i, i + 1);
      DaysInOrder(sorted, i + 1, j);
    }
  }

  lemma DaysInOrder(s: seq<Contribution>, i: nat, j: nat)
    requires Chronological(s) && i <= j < |s|
    ensures Day(s[i]) <= Day(s[j])
  {
    assert s[i].at <= s[j].at;
  }
}
