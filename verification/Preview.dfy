/**
  The bounded metric preview: the latest values of the smallest metric keys that
  are not system metrics, kept by the client record by record and by the server
  batch by batch.
 */
module Preview {

  const MAX_DERIVED_SUMMARY_KEYS: nat := 256
  const SYSTEM_METRIC_PREFIX := "system/"

  type Metrics = map<string, real>

  /** Code point order, which both ends of the protocol sort keys by. */
  predicate Less(a: string, b: string) {
    if b == "" then false
    else if a == "" then true
    else a[0] < b[0] || (a[0] == b[0] && Less(a[1..], b[1..]))
  }

  predicate IsSystem(key: string) {
    SYSTEM_METRIC_PREFIX <= key
  }

  function UserPart(metrics: Metrics): Metrics {
    map k | k in metrics && !IsSystem(k) :: metrics[k]
  }

  /** How many of `keys` come before `key`. */
  ghost function Rank(keys: set<string>, key: string): nat {
    |Before(keys, key)|
  }

  ghost function Before(keys: set<string>, key: string): set<string> {
    set j | j in keys && Less(j, key)
  }

  ghost function SmallestKeys(keys: set<string>, n: nat): set<string> {
    set k | k in keys && Rank(keys, k) < n
  }

  /** The entries of the `n` smallest keys. */
  ghost function Smallest(m: Metrics, n: nat): Metrics {
    map k | k in SmallestKeys(m.Keys, n) && k in m :: m[k]
  }

  // ---------------------------------------------------------------- order

  lemma {:induction false} LessIrreflexive(a: string)
    ensures !Less(a, a)
  {
    if a != "" { LessIrreflexive(a[1..]); }
  }

  lemma {:induction false} LessTransitive(a: string, b: string, c: string)
    requires Less(a, b) && Less(b, c)
    ensures Less(a, c)
  {
    if a != "" && a[0] == b[0] == c[0] { LessTransitive(a[1..], b[1..], c[1..]); }
  }

  lemma {:induction false} LessTotal(a: string, b: string)
    ensures Less(a, b) || a == b || Less(b, a)
  {
    if a != "" && b != "" && a[0] == b[0] {
      LessTotal(a[1..], b[1..]);
      assert a == [a[0]] + a[1..] && b == [b[0]] + b[1..];
    }
  }

  lemma LessAsymmetric(a: string, b: string)
    requires Less(a, b)
    ensures !Less(b, a) && a != b
  {
    LessIrreflexive(a);
    if Less(b, a) { LessTransitive(a, b, a); }
  }

  ghost predicate IsGreatest(keys: set<string>, m: string) {
    m in keys && forall j :: j in keys && j != m ==> Less(j, m)
  }

  ghost predicate IsLeast(keys: set<string>, m: string) {
    m in keys && forall j :: j in keys && j != m ==> Less(m, j)
  }

  lemma {:induction false} GreatestExists(keys: set<string>) returns (m: string)
    requires keys != {}
    ensures IsGreatest(keys, m)
    decreases |keys|
  {
    hide Less;
    m :| m in keys;
    var rest := keys - {m};
    if rest == {} {
      assert keys == {m};
    } else {
      var n := GreatestExists(rest);
      LessTotal(m, n);
      if Less(m, n) {
        assert keys == rest + {m};
        m := n;
      } else {
        forall j | j in keys && j != m
          ensures Less(j, m)
        {
          assert j in rest;
          if j != n { LessTransitive(j, n, m); }
        }
      }
    }
  }

  lemma {:induction false} LeastExists(keys: set<string>) returns (m: string)
    requires keys != {}
    ensures IsLeast(keys, m)
    decreases |keys|
  {
    hide Less;
    m :| m in keys;
    var rest := keys - {m};
    if rest == {} {
      assert keys == {m};
    } else {
      var n := LeastExists(rest);
      LessTotal(m, n);
      if Less(n, m) {
        assert keys == rest + {m};
        m := n;
      } else {
        forall j | j in keys && j != m
          ensures Less(m, j)
        {
          assert j in rest;
          if j != n { LessTransitive(m, n, j); }
        }
      }
    }
  }

  // ----------------------------------------------------------------- rank

  lemma RankMonotone(keys: set<string>, more: set<string>, key: string)
    requires keys <= more
    ensures Rank(keys, key) <= Rank(more, key)
  {
    hide Less;
    SubsetSize(Before(keys, key), Before(more, key));
  }

  lemma {:induction false} SubsetSize(a: set<string>, b: set<string>)
    requires a <= b
    ensures |a| <= |b|
  {
    assert b == a + (b - a);
  }

  lemma RankOrder(keys: set<string>, i: string, k: string)
    requires i in keys && Less(i, k)
    ensures Rank(keys, i) < Rank(keys, k)
  {
    var a, b := Before(keys, i), Before(keys, k);
    LessIrreflexive(i);
    forall j | j in a
      ensures j in b
    {
      LessTransitive(j, i, k);
    }
    hide Less;
    SubsetSize(a + {i}, b);
  }

  lemma RankBelowSize(keys: set<string>, key: string)
    requires key in keys
    ensures Rank(keys, key) < |keys|
  {
    LessIrreflexive(key);
    SubsetSize(Before(keys, key) + {key}, keys);
  }

  /** Removing the greatest key changes no other rank. */
  lemma RankWithoutGreatest(keys: set<string>, m: string, key: string)
    requires IsGreatest(keys, m) && key in keys
    ensures key != m ==> Rank(keys - {m}, key) == Rank(keys, key)
    ensures Rank(keys, m) == |keys| - 1
  {
    LessIrreflexive(m);
    if key != m {
      LessAsymmetric(key, m);
      assert Before(keys - {m}, key) == Before(keys, key);
    }
    hide Less;
    assert Before(keys, m) == keys - {m};
  }

  lemma {:induction false} SmallestCount(keys: set<string>, n: nat)
    ensures |SmallestKeys(keys, n)| == if n < |keys| then n else |keys|
    ensures |keys| <= n ==> SmallestKeys(keys, n) == keys
    decreases |keys|
  {
    hide Less, Rank, Before;
    if |keys| <= n {
      forall k | k in keys
        ensures Rank(keys, k) < n
      {
        RankBelowSize(keys, k);
      }
      assert SmallestKeys(keys, n) == keys;
    } else {
      var m := GreatestExists(keys);
      forall k | k in keys
        ensures k != m ==> Rank(keys - {m}, k) == Rank(keys, k)
        ensures Rank(keys, m) == |keys| - 1
      {
        RankWithoutGreatest(keys, m, k);
      }
      assert SmallestKeys(keys, n) == SmallestKeys(keys - {m}, n);
      SmallestCount(keys - {m}, n);
    }
  }

  /**
    Dropping keys that are not among the `n` smallest does not change which are:
    the heart of truncating at every step.
   */
  lemma SmallestBetween(some: set<string>, all: set<string>, n: nat)
    requires SmallestKeys(all, n) <= some <= all
    ensures SmallestKeys(some, n) == SmallestKeys(all, n)
  {
    hide Less, Rank, Before;
    forall k | k in some
      ensures Rank(some, k) < n <==> Rank(all, k) < n
    {
      RankMonotone(some, all, k);
      if Rank(all, k) >= n { NotAmongSmallest(some, all, n, k); }
    }
  }

  lemma NotAmongSmallest(some: set<string>, all: set<string>, n: nat, k: string)
    requires SmallestKeys(all, n) <= some <= all && k in some && Rank(all, k) >= n
    ensures Rank(some, k) >= n
  {
    hide Less;
    var kept := SmallestKeys(all, n);
    forall i | i in kept
      ensures i in Before(some, k)
    {
      LessTotal(i, k);
      if Less(k, i) { RankOrder(all, k, i); }
    }
    RankBelowSize(all, k);
    SmallestCount(all, n);
    SubsetSize(kept, Before(some, k));
  }

  /** Truncating before adding newer values is as good as truncating afterwards. */
  lemma SmallestAbsorbs(older: Metrics, newer: Metrics, n: nat)
    ensures Smallest(Smallest(older, n) + newer, n) == Smallest(older + newer, n)
  {
    var some, all := Smallest(older, n) + newer, older + newer;
    forall k | k in SmallestKeys(all.Keys, n)
      ensures k in some.Keys
    {
      if k in older { RankMonotone(older.Keys, all.Keys, k); }
    }
    hide Rank;
    assert some.Keys <= all.Keys;
    SmallestBetween(some.Keys, all.Keys, n);
  }

  // ------------------------------------------------- the order on characters

  /** At the first difference `b` goes on, with a greater character where `a` goes on too. */
  ghost predicate Precedes(a: string, b: string) {
    exists i :: 0 <= i <= |a| && DiffersAt(a, b, i)
  }

  predicate DiffersAt(a: string, b: string, i: nat)
    requires i <= |a|
  {
    i < |b| && a[..i] == b[..i] && (i == |a| || a[i] < b[i])
  }

  lemma {:induction false} LessIsPrecedes(a: string, b: string)
    ensures Less(a, b) <==> Precedes(a, b)
  {
    if a == "" || b == "" || a[0] != b[0] {
      assert a == "" && b != "" ==> DiffersAt(a, b, 0);
      assert a != "" && b != "" && a[0] < b[0] ==> DiffersAt(a, b, 0);
      assert a != "" && b != "" ==> forall i :: 0 < i <= |a| && DiffersAt(a, b, i) ==> a[..i][0] == b[..i][0];
    } else {
      LessIsPrecedes(a[1..], b[1..]);
      if Precedes(a[1..], b[1..]) {
        var i :| 0 <= i <= |a[1..]| && DiffersAt(a[1..], b[1..], i);
        PrefixOfTails(a, b, i);
        assert DiffersAt(a, b, i + 1);
      }
      if Precedes(a, b) {
        var i :| 0 <= i <= |a| && DiffersAt(a, b, i);
        assert i > 0;
        PrefixOfTails(a, b, i - 1);
        assert DiffersAt(a[1..], b[1..], i - 1);
      }
    }
  }

  lemma PrefixOfTails(a: string, b: string, i: nat)
    requires i < |a| && i < |b| && a[0] == b[0]
    ensures a[1..][..i] == b[1..][..i] <==> a[..i + 1] == b[..i + 1]
  {
    assert a[..i + 1] == [a[0]] + a[1..][..i] && b[..i + 1] == [b[0]] + b[1..][..i];
  }

  ghost function Preceding(keys: set<string>, key: string): set<string> {
    set j | j in keys && Precedes(j, key)
  }

  /** Exactly the first `n` entries, by character order of their keys. */
  ghost predicate KeepsFirst(kept: Metrics, all: Metrics, n: nat) {
    && (forall k :: k in kept <==> k in all && |Preceding(all.Keys, k)| < n)
    && forall k :: k in kept ==> k in all && kept[k] == all[k]
  }

  lemma SmallestKeepsFirst(m: Metrics, n: nat)
    ensures KeepsFirst(Smallest(m, n), m, n)
  {
    hide Less, Precedes;
    forall j, k
      ensures Less(j, k) <==> Precedes(j, k)
    {
      LessIsPrecedes(j, k);
    }
    forall k
      ensures Before(m.Keys, k) == Preceding(m.Keys, k)
    {
    }
  }

  /** The newer values win, and none is taken of a key that starts like a system metric. */
  ghost predicate IsMerged(current: Metrics, newer: Metrics, merged: Metrics) {
    && (forall k :: k in merged <==> k in current || (k in newer && !(SYSTEM_METRIC_PREFIX <= k)))
    && forall k :: k in merged ==>
         if k in newer && !(SYSTEM_METRIC_PREFIX <= k) then merged[k] == newer[k]
         else k in current && merged[k] == current[k]
  }

  // ------------------------------------------------- the preview and its law

  datatype Preview = Preview(values: Metrics, truncated: bool)

  /** The latest value of every user metric in a history of points. */
  ghost function Latest(history: seq<Metrics>): Metrics {
    if history == [] then map[] else Latest(history[..|history| - 1]) + UserPart(history[|history| - 1])
  }

  /** What the preview must be after a whole history, truncated once at the end. */
  ghost function PreviewOf(history: seq<Metrics>): Preview {
    Preview(Smallest(Latest(history), MAX_DERIVED_SUMMARY_KEYS), |Latest(history)| > MAX_DERIVED_SUMMARY_KEYS)
  }

  /** A preview after adding newer user values and truncating again. */
  ghost function Updated(p: Preview, newer: Metrics): Preview {
    var candidates := p.values + newer;
    Preview(Smallest(candidates, MAX_DERIVED_SUMMARY_KEYS), p.truncated || |candidates| > MAX_DERIVED_SUMMARY_KEYS)
  }

  lemma SmallestSize(m: Metrics, n: nat)
    ensures |Smallest(m, n)| == if n < |m| then n else |m|
    ensures |m| <= n ==> Smallest(m, n) == m
    ensures Smallest(m, n).Keys == SmallestKeys(m.Keys, n)
  {
    SmallestCount(m.Keys, n);
    hide Rank;
    assert Smallest(m, n).Keys == SmallestKeys(m.Keys, n);
    assert |m| == |m.Keys| && |Smallest(m, n)| == |Smallest(m, n).Keys|;
  }

  lemma UpdatedIsExact(older: Metrics, newer: Metrics)
    ensures Updated(Preview(Smallest(older, MAX_DERIVED_SUMMARY_KEYS), |older| > MAX_DERIVED_SUMMARY_KEYS), newer)
            == Preview(Smallest(older + newer, MAX_DERIVED_SUMMARY_KEYS), |older + newer| > MAX_DERIVED_SUMMARY_KEYS)
  {
    hide Smallest, SmallestKeys;
    SmallestAbsorbs(older, newer, MAX_DERIVED_SUMMARY_KEYS);
    SmallestSize(older, MAX_DERIVED_SUMMARY_KEYS);
    SubsetSize(older.Keys, (older + newer).Keys);
  }

  lemma {:induction false} LatestConcat(a: seq<Metrics>, b: seq<Metrics>)
    ensures Latest(a + b) == Latest(a) + Latest(b)
    decreases |b|
  {
    hide UserPart;
    if b == [] {
      assert a + b == a;
    } else {
      var c, last := b[..|b| - 1], b[|b| - 1];
      assert (a + b)[..|a + b| - 1] == a + c;
      calc {
        Latest(a + b);
        Latest(a + c) + UserPart(last);
        { LatestConcat(a, c); }
        (Latest(a) + Latest(c)) + UserPart(last);
        { OverrideAssociates(Latest(a), Latest(c), UserPart(last)); }
        Latest(a) + Latest(b);
      }
    }
  }

  /** Point `i` is the last one that has the key. */
  predicate IsLatest(history: seq<Metrics>, key: string, i: nat)
    requires i < |history|
  {
    key in history[i] && forall j :: i < j < |history| ==> key !in history[j]
  }

  /** The value is that of the last point that has the key. */
  ghost predicate IsLatestValue(history: seq<Metrics>, key: string, value: real) {
    exists i :: 0 <= i < |history| && IsLatest(history, key, i) && history[i][key] == value
  }

  /** The keys of the history that are no system metrics, each with its last value. */
  ghost predicate HoldsLatest(latest: Metrics, history: seq<Metrics>) {
    && (forall k, i :: 0 <= i < |history| && k in history[i] && !(SYSTEM_METRIC_PREFIX <= k) ==> k in latest)
    && forall k :: k in latest ==> !(SYSTEM_METRIC_PREFIX <= k) && IsLatestValue(history, k, latest[k])
  }

  lemma LatestOfNext(history: seq<Metrics>, point: Metrics, key: string, value: real)
    ensures key in point && point[key] == value ==> IsLatestValue(history + [point], key, value)
    ensures key !in point && IsLatestValue(history, key, value) ==> IsLatestValue(history + [point], key, value)
  {
    var longer := history + [point];
    if key in point {
      assert IsLatest(longer, key, |history|);
    } else if IsLatestValue(history, key, value) {
      var i :| 0 <= i < |history| && IsLatest(history, key, i) && history[i][key] == value;
      assert IsLatest(longer, key, i);
    }
  }

  lemma HoldsLatestNext(latest: Metrics, history: seq<Metrics>, point: Metrics)
    requires HoldsLatest(latest, history)
    ensures HoldsLatest(latest + UserPart(point), history + [point])
  {
    hide IsLatestValue;
    var next, longer := latest + UserPart(point), history + [point];
    forall k | k in next
      ensures !(SYSTEM_METRIC_PREFIX <= k) && IsLatestValue(longer, k, next[k])
    {
      LatestOfNext(history, point, k, next[k]);
    }
    forall k, i | 0 <= i < |longer| && k in longer[i] && !(SYSTEM_METRIC_PREFIX <= k)
      ensures k in next
    {
      if i < |history| { assert k in history[i]; }
    }
  }

  lemma {:induction false} LatestIsDeclared(history: seq<Metrics>)
    ensures HoldsLatest(Latest(history), history)
  {
    if history != [] {
      hide HoldsLatest, UserPart;
      var n := |history| - 1;
      LatestIsDeclared(history[..n]);
      HoldsLatestNext(Latest(history[..n]), history[..n], history[n]);
      assert history == history[..n] + [history[n]];
    } else {
      NothingLatest();
    }
  }

  lemma NothingLatest()
    ensures HoldsLatest(map[], [])
  {
  }

  /** The preview keeps the first keys of what the history has, and says whether there are more. */
  lemma PreviewIsDeclared(history: seq<Metrics>)
    ensures HoldsLatest(Latest(history), history)
    ensures KeepsFirst(PreviewOf(history).values, Latest(history), MAX_DERIVED_SUMMARY_KEYS)
    ensures PreviewOf(history).truncated <==> |Latest(history)| > MAX_DERIVED_SUMMARY_KEYS
  {
    hide Latest, Smallest, HoldsLatest, KeepsFirst;
    LatestIsDeclared(history);
    SmallestKeepsFirst(Latest(history), MAX_DERIVED_SUMMARY_KEYS);
  }

  lemma OverrideAssociates(a: Metrics, b: Metrics, c: Metrics)
    ensures (a + b) + c == a + (b + c)
  {
  }

  /** Client side: merging point by point is the preview of the whole history. */
  lemma MergingPointsIsExact(history: seq<Metrics>, point: Metrics)
    ensures Updated(PreviewOf(history), UserPart(point)) == PreviewOf(history + [point])
  {
    assert (history + [point])[..|history|] == history;
    UpdatedIsExact(Latest(history), UserPart(point));
  }

  /** Server side: merging batch by batch is the preview of the whole history. */
  lemma MergingBatchesIsExact(history: seq<Metrics>, batch: seq<Metrics>)
    ensures Updated(PreviewOf(history), Latest(batch)) == PreviewOf(history + batch)
  {
    LatestConcat(history, batch);
    UpdatedIsExact(Latest(history), Latest(batch));
  }

  lemma {:induction false} LatestHasNoSystemKeys(history: seq<Metrics>)
    ensures UserPart(Latest(history)) == Latest(history)
  {
    if history != [] { LatestHasNoSystemKeys(history[..|history| - 1]); }
  }

  /** A history of system metrics leaves the preview alone. */
  lemma SystemPointsAreInvisible(history: seq<Metrics>, point: Metrics)
    requires forall k :: k in point ==> IsSystem(k)
    ensures PreviewOf(history + [point]) == PreviewOf(history)
  {
    assert (history + [point])[..|history|] == history;
    assert Latest(history + [point]) == Latest(history);
  }

  /** Merging the previews of two histories is the preview of one after the other. */
  lemma MergingPreviewsIsExact(older: seq<Metrics>, newer: seq<Metrics>)
    ensures var p, q := PreviewOf(older), PreviewOf(newer);
            Updated(Preview(p.values, p.truncated || q.truncated), UserPart(q.values)) == PreviewOf(older + newer)
  {
    var n := MAX_DERIVED_SUMMARY_KEYS;
    var a, b := Latest(older), Latest(newer);
    hide Latest, Smallest, UserPart, IsSystem;
    LatestConcat(older, newer);
    LatestHasNoSystemKeys(newer);
    UserPartOfSmallest(b, n);
    SmallestOfBoth(a, b, n);
    TruncatedTogether(a, b, n);
  }

  /** Something has been dropped on either side or is dropped now exactly when all keys together are too many. */
  lemma TruncatedTogether(a: Metrics, b: Metrics, n: nat)
    ensures |a| > n || |b| > n || |Smallest(a, n) + Smallest(b, n)| > n <==> |a + b| > n
  {
    hide Smallest, SmallestKeys;
    SmallestSize(a, n);
    SmallestSize(b, n);
    SmallestOfBoth(a, b, n);
    var candidates := Smallest(a, n) + Smallest(b, n);
    SizeOfKeys(candidates, a + b);
    SizeOfKeys(a, a + b);
    SizeOfKeys(b, a + b);
  }

  lemma SizeOfKeys(a: Metrics, b: Metrics)
    requires a.Keys <= b.Keys
    ensures |a| <= |b|
  {
    SubsetSize(a.Keys, b.Keys);
    assert |a| == |a.Keys| && |b| == |b.Keys|;
  }

  /**
    Resuming: the client's own preview, of its whole journal or also of what the server held
    before it, merged with the server's of everything up to some earlier record, is the
    preview of everything.
   */
  lemma EarlierPreviewIsAbsorbed(before: seq<Metrics>, earlier: seq<Metrics>, later: seq<Metrics>, met: bool)
    ensures var server := PreviewOf(before + earlier);
            var client := PreviewOf((if met then before else []) + (earlier + later));
            Updated(Preview(server.values, server.truncated || client.truncated), UserPart(client.values))
            == PreviewOf(before + (earlier + later))
  {
    var own := (if met then before else []) + (earlier + later);
    MergingPreviewsIsExact(before + earlier, own);
    LatestConcat(before, earlier);
    LatestConcat(earlier, later);
    LatestConcat(before + earlier, own);
    LatestConcat(if met then before else [], earlier + later);
    LatestConcat(before, earlier + later);
    RepeatsAreOverridden(Latest(before), Latest(earlier), Latest(later));
    hide Latest, Smallest, UserPart, Updated;
    if !met { assert [] + (earlier + later) == earlier + later; }
  }

  lemma RepeatsAreOverridden(a: Metrics, b: Metrics, c: Metrics)
    ensures (a + b) + (b + c) == a + (b + c)
    ensures (a + b) + (a + (b + c)) == a + (b + c)
  {
  }

  lemma UserPartOfSmallest(m: Metrics, n: nat)
    requires UserPart(m) == m
    ensures UserPart(Smallest(m, n)) == Smallest(m, n)
  {
    hide SmallestKeys, IsSystem;
    forall k | k in Smallest(m, n)
      ensures !IsSystem(k)
    {
      assert k in UserPart(m);
    }
  }

  lemma SmallestOfBoth(a: Metrics, b: Metrics, n: nat)
    ensures Smallest(Smallest(a, n) + Smallest(b, n), n) == Smallest(a + b, n)
    ensures (Smallest(a, n) + Smallest(b, n)).Keys <= (a + b).Keys
  {
    var some, all := Smallest(a, n) + Smallest(b, n), a + b;
    forall k | k in SmallestKeys(all.Keys, n)
      ensures k in some && some[k] == all[k]
    {
      if k in a { RankMonotone(a.Keys, all.Keys, k); }
      if k in b { RankMonotone(b.Keys, all.Keys, k); }
    }
    hide Rank;
    assert some.Keys <= all.Keys;
    SmallestBetween(some.Keys, all.Keys, n);
  }

  // ------------------------------------------------------------- the code

  /** Strictly increasing, and holding exactly `keys`. */
  ghost predicate IsSorted(keys: set<string>, ordered: seq<string>) {
    && (forall i, j :: 0 <= i < j < |ordered| ==> Less(ordered[i], ordered[j]))
    && (forall k :: k in keys <==> k in ordered)
  }

  method SortKeys(keys: set<string>) returns (ordered: seq<string>)
    ensures IsSorted(keys, ordered)
  {
    hide Less;
    ordered := [];
    var rest := keys;
    while rest != {}
      invariant rest <= keys && forall k :: k in keys <==> k in ordered || k in rest
      invariant forall i, j :: 0 <= i < j < |ordered| ==> Less(ordered[i], ordered[j])
      invariant forall i, k :: 0 <= i < |ordered| && k in rest ==> Less(ordered[i], k)
      decreases rest
    {
      ghost var least := LeastExists(rest);
      assert least in rest;
      var key :| key in rest && forall j | j in rest :: j != key ==> Less(key, j);
      ordered := ordered + [key];
      rest := rest - {key};
    }
  }

  ghost function Elements(s: seq<string>): set<string> {
    set i | 0 <= i < |s| :: s[i]
  }

  lemma {:induction false} DistinctCount(s: seq<string>, n: nat)
    requires n <= |s| && forall i, j :: 0 <= i < j < |s| ==> s[i] != s[j]
    ensures |Elements(s[..n])| == n
  {
    if n > 0 {
      DistinctCount(s, n - 1);
      assert s[..n] == s[..n - 1] + [s[n - 1]];
      assert Elements(s[..n]) == Elements(s[..n - 1]) + {s[n - 1]};
    }
  }

  /** The i-th key in sorted order has exactly `i` keys before it. */
  lemma RankIsPosition(keys: set<string>, ordered: seq<string>, i: nat)
    requires IsSorted(keys, ordered) && i < |ordered|
    ensures Rank(keys, ordered[i]) == i
  {
    forall a, b | 0 <= a < b < |ordered|
      ensures ordered[a] != ordered[b] && !Less(ordered[b], ordered[a])
    {
      LessAsymmetric(ordered[a], ordered[b]);
    }
    LessIrreflexive(ordered[i]);
    hide Less;
    DistinctCount(ordered, i);
    assert Before(keys, ordered[i]) == Elements(ordered[..i]);
  }

  lemma FirstKeysAreSmallest(keys: set<string>, ordered: seq<string>, n: nat)
    requires IsSorted(keys, ordered)
    ensures forall k :: k in ordered[..if n < |ordered| then n else |ordered|] <==> k in SmallestKeys(keys, n)
  {
    var first := ordered[..if n < |ordered| then n else |ordered|];
    forall k
      ensures k in first <==> k in SmallestKeys(keys, n)
    {
      hide Less, Rank;
      if k in ordered {
        var i :| 0 <= i < |ordered| && ordered[i] == k;
        RankIsPosition(keys, ordered, i);
        if k in first {
          var j :| 0 <= j < |first| && first[j] == k;
          RankIsPosition(keys, ordered, j);
        }
        if i < n { assert first[i] == k; }
      }
    }
  }

  method Overwrite(current: Metrics, metrics: Metrics) returns (candidates: Metrics)
    ensures candidates == current + UserPart(metrics)
  {
    var pending := metrics.Keys;
    candidates := current;
    while pending != {}
      invariant pending <= metrics.Keys
      invariant candidates == current + UserPart(metrics - pending)
      decreases pending
    {
      var key :| key in pending;
      if !IsSystem(key) {
        candidates := candidates[key := metrics[key]];
      }
      OneMoreKey(metrics, pending, key);
      pending := pending - {key};
    }
    assert metrics - {} == metrics;
  }

  lemma OneMoreKey(metrics: Metrics, pending: set<string>, key: string)
    requires key in pending && key in metrics
    ensures UserPart(metrics - (pending - {key}))
            == if IsSystem(key) then UserPart(metrics - pending) else UserPart(metrics - pending)[key := metrics[key]]
  {
    hide IsSystem;
  }

  /** `merge_metric_preview`: overwrite, sort, keep the first keys. */
  method MergeMetricPreview(current: Metrics, metrics: Metrics, truncated: bool)
    returns (preview: Metrics, nowTruncated: bool)
    ensures Preview(preview, nowTruncated) == Updated(Preview(current, truncated), UserPart(metrics))
    ensures exists all :: IsMerged(current, metrics, all) && KeepsFirst(preview, all, MAX_DERIVED_SUMMARY_KEYS)
                          && nowTruncated == (truncated || |all| > MAX_DERIVED_SUMMARY_KEYS)
  {
    hide IsSorted, UserPart, SmallestKeys;
    var candidates := Overwrite(current, metrics);
    var ordered := SortKeys(candidates.Keys);
    var retained := ordered[..if MAX_DERIVED_SUMMARY_KEYS < |ordered| then MAX_DERIVED_SUMMARY_KEYS else |ordered|];
    FirstKeysAreSmallest(candidates.Keys, ordered, MAX_DERIVED_SUMMARY_KEYS);
    preview := map k | k in retained && k in candidates :: candidates[k];
    nowTruncated := truncated || |candidates| > MAX_DERIVED_SUMMARY_KEYS;
    assert preview == Smallest(candidates, MAX_DERIVED_SUMMARY_KEYS);
    hide *;
    SmallestKeepsFirst(candidates, MAX_DERIVED_SUMMARY_KEYS);
    OverwrittenIsMerged(current, metrics);
  }

  lemma OverwrittenIsMerged(current: Metrics, metrics: Metrics)
    ensures IsMerged(current, metrics, current + UserPart(metrics))
  {
  }

  lemma WithoutGreatest(m: Metrics, key: string, n: nat)
    requires IsGreatest(m.Keys, key) && |m| > n
    ensures Smallest(m - {key}, n) == Smallest(m, n)
    ensures |m - {key}| == |m| - 1
  {
    RankWithoutGreatest(m.Keys, key, key);
    assert |m| == |m.Keys| && (m - {key}).Keys == m.Keys - {key};
    hide Rank, Less;
    SmallestBetween(m.Keys - {key}, m.Keys, n);
  }

  /** `update_metric_summary_preview`: extend, then pop the greatest key while too long. */
  method UpdateMetricSummaryPreview(stored: Metrics, storedTruncated: bool, latest: Metrics)
    returns (preview: Metrics, truncated: bool)
    ensures Preview(preview, truncated) == Updated(Preview(stored, storedTruncated), latest)
    ensures KeepsFirst(preview, stored + latest, MAX_DERIVED_SUMMARY_KEYS)
    ensures truncated == (storedTruncated || |stored + latest| > MAX_DERIVED_SUMMARY_KEYS)
  {
    hide SmallestKeys, Smallest, Less;
    preview, truncated := stored + latest, storedTruncated;
    ghost var candidates := preview;
    while |preview| > MAX_DERIVED_SUMMARY_KEYS
      invariant Smallest(preview, MAX_DERIVED_SUMMARY_KEYS) == Smallest(candidates, MAX_DERIVED_SUMMARY_KEYS)
      invariant truncated == (storedTruncated || |preview| < |candidates|)
      invariant |preview| <= |candidates|
      invariant |candidates| > MAX_DERIVED_SUMMARY_KEYS ==> |preview| >= MAX_DERIVED_SUMMARY_KEYS
      invariant |candidates| <= MAX_DERIVED_SUMMARY_KEYS ==> preview == candidates
      decreases |preview|
    {
      ghost var greatest := GreatestExists(preview.Keys);
      assert greatest in preview.Keys;
      var key :| key in preview.Keys && forall j | j in preview.Keys :: j != key ==> Less(j, key);
      assert IsGreatest(preview.Keys, key);
      WithoutGreatest(preview, key, MAX_DERIVED_SUMMARY_KEYS);
      preview, truncated := preview - {key}, true;
    }
    SmallestSize(preview, MAX_DERIVED_SUMMARY_KEYS);
    SmallestKeepsFirst(candidates, MAX_DERIVED_SUMMARY_KEYS);
    hide KeepsFirst;
  }

  /** `latest_metrics`: the values one batch contributes. */
  method LatestMetrics(points: seq<Metrics>) returns (summary: Metrics)
    ensures summary == Latest(points) && HoldsLatest(summary, points)
  {
    summary := map[];
    for i := 0 to |points|
      invariant summary == Latest(points[..i])
    {
      assert points[..i + 1][..i] == points[..i];
      summary := summary + UserPart(points[i]);
    }
    assert points[..|points|] == points;
    LatestIsDeclared(points);
  }
}
