/** `Gestures`: the saved templates by name, in a `std::map<std::string, Gesture*>`,
    with the helpers that count the entries and list the names in map order. */
module Registry {
  import opened Wrappers
  import opened Templates
  import Recording
  import Sampling

  /** `std::less<std::string>`: strings compare character by character, and a
      proper prefix comes first. */
  predicate KeyLess(a: string, b: string)
    decreases |a|
  {
    if a == [] then b != []
    else if b == [] then false
    else if a[0] != b[0] then a[0] < b[0]
    else KeyLess(a[1..], b[1..])
  }

  lemma {:induction false} KeyLessIrreflexive(a: string)
    decreases |a|
    ensures !KeyLess(a, a)
  {
    if a != [] {
      KeyLessIrreflexive(a[1..]);
    }
  }

  lemma {:induction false} KeyLessAsymmetric(a: string, b: string)
    decreases |a|
    ensures KeyLess(a, b) ==> !KeyLess(b, a)
  {
    if a != [] && b != [] && a[0] == b[0] {
      KeyLessAsymmetric(a[1..], b[1..]);
    }
  }

  lemma {:induction false} KeyLessTransitive(a: string, b: string, c: string)
    decreases |a|
    ensures KeyLess(a, b) && KeyLess(b, c) ==> KeyLess(a, c)
  {
    if a != [] && b != [] && c != [] && a[0] == b[0] == c[0] {
      KeyLessTransitive(a[1..], b[1..], c[1..]);
    }
  }

  lemma {:induction false} KeyLessTotal(a: string, b: string)
    decreases |a|
    ensures a != b ==> KeyLess(a, b) || KeyLess(b, a)
  {
    if a != [] && b != [] && a[0] == b[0] {
      KeyLessTotal(a[1..], b[1..]);
      if a[1..] == b[1..] {
        assert a == [a[0]] + a[1..] && b == [b[0]] + b[1..];
      }
    }
  }

  /** `k` is the key a `std::map` holding the keys `s` would visit first. */
  predicate IsLeast(k: string, s: set<string>) {
    k in s && forall x :: x in s && x != k ==> KeyLess(k, x)
  }

  lemma {:induction false} LeastExists(s: set<string>)
    requires s != {}
    decreases |s|
    ensures exists k :: IsLeast(k, s)
  {
    var x :| x in s;
    var others := s - {x};
    if others == {} {
      assert s == {x};
      assert IsLeast(x, s);
    } else {
      LeastExists(others);
      var m :| IsLeast(m, others);
      KeyLessTotal(x, m);
      if KeyLess(x, m) {
        forall y | y in s && y != x ensures KeyLess(x, y) {
          if y != m { KeyLessTransitive(x, m, y); }
        }
        assert IsLeast(x, s);
      } else {
        assert IsLeast(m, s);
      }
    }
  }

  lemma LeastUnique(k: string, j: string, s: set<string>)
    requires IsLeast(k, s) && IsLeast(j, s)
    ensures k == j
  {
    if k != j {
      KeyLessAsymmetric(k, j);
    }
  }

  /** The key a `std::map` holding the keys `s` visits first. */
  ghost function Least(s: set<string>): (k: string)
    requires s != {}
    ensures IsLeast(k, s)
  {
    LeastExists(s);
    var k :| IsLeast(k, s); k
  }

  /** Strictly ascending in map order. */
  predicate Ascending(ks: seq<string>) {
    forall i, j :: 0 <= i < j < |ks| ==> KeyLess(ks[i], ks[j])
  }

  /** The keys `s` in the order a `std::map` iterator visits them. */
  ghost function SortedKeys(s: set<string>): (ks: seq<string>)
    decreases |s|
    ensures |ks| == |s|
    ensures forall k :: k in ks <==> k in s
    ensures Ascending(ks)
  {
    if s == {} then [] else [Least(s)] + SortedKeys(s - {Least(s)})
  }

  /** The iterator visits the least key first and then the rest in order. */
  lemma SortedKeysFirst(k: string, s: set<string>)
    requires IsLeast(k, s)
    ensures SortedKeys(s) == [k] + SortedKeys(s - {k})
  {
    LeastUnique(k, Least(s), s);
  }

  /** One step of an in-order walk: having visited `seen`, the walk visits
      the least remaining key next. */
  lemma VisitNext(all: seq<string>, seen: seq<string>, rest: set<string>, k: string)
    requires all == seen + SortedKeys(rest) && IsLeast(k, rest)
    ensures all == (seen + [k]) + SortedKeys(rest - {k})
    ensures |seen| < |all| && all[|seen|] == k
  {
    SortedKeysFirst(k, rest);
    assert seen + ([k] + SortedKeys(rest - {k})) == (seen + [k]) + SortedKeys(rest - {k});
  }

  /** The first entry of an ascending listing of `s` is the least key of `s`. */
  lemma AscendingHeadIsLeast(ks: seq<string>, s: set<string>)
    requires Ascending(ks) && ks != [] && (forall k :: k in ks <==> k in s)
    ensures IsLeast(ks[0], s)
  {
    forall x | x in s && x != ks[0] ensures KeyLess(ks[0], x) {
      var i :| 0 <= i < |ks| && ks[i] == x;
    }
  }

  /** The rest of an ascending listing of `s` lists `s` without its head. */
  lemma AscendingTail(ks: seq<string>, s: set<string>)
    requires Ascending(ks) && ks != [] && (forall k :: k in ks <==> k in s) && |ks| == |s|
    ensures Ascending(ks[1..]) && |ks[1..]| == |s - {ks[0]}|
    ensures forall k :: k in ks[1..] <==> k in s - {ks[0]}
  {
    KeyLessIrreflexive(ks[0]);
    forall i | 0 <= i < |ks[1..]| ensures ks[1..][i] != ks[0] {
      assert KeyLess(ks[0], ks[i + 1]);
    }
    forall k ensures k in ks[1..] <==> k in s - {ks[0]} {
      if k in s - {ks[0]} {
        var i :| 0 <= i < |ks| && ks[i] == k;
        assert ks[1..][i - 1] == k;
      }
    }
  }

  /** No other ascending listing of the same keys exists: `SortedKeys` is the
      one map order. */
  lemma {:induction false} AscendingIsSortedKeys(ks: seq<string>, s: set<string>)
    requires Ascending(ks) && (forall k :: k in ks <==> k in s) && |ks| == |s|
    decreases |ks|
    ensures ks == SortedKeys(s)
  {
    if ks != [] {
      var tail, others := ks[1..], s - {ks[0]};
      assert SortedKeys(s) == [ks[0]] + SortedKeys(others) by {
        AscendingHeadIsLeast(ks, s);
        SortedKeysFirst(ks[0], s);
      }
      assert tail == SortedKeys(others) by {
        AscendingTail(ks, s);
        AscendingIsSortedKeys(tail, others);
      }
      assert ks == [ks[0]] + tail;
    }
  }

  /** `keyAt` as written: the name at position `n` if the loop returns one,
      `None` when control reaches the end of the function without a `return`
      (undefined behaviour in C++). The counter `i` is never advanced, so only
      position 0 is ever found. */
  ghost function KeyAtAsWritten(keys: set<string>, n: int): (r: Option<string>)
    ensures r.Some? <==> n == 0 && keys != {}
    ensures r.Some? ==> r.value in keys
  {
    if n == 0 && keys != {} then Some(SortedKeys(keys)[0]) else None
  }

  /** `keyAt` as evidently intended: the `n`-th name in map order. */
  ghost function NthKey(keys: set<string>, n: int): (r: Option<string>)
    ensures r.Some? <==> 0 <= n < |keys|
    ensures r.Some? ==> r.value in keys
  {
    if 0 <= n < |keys| then Some(SortedKeys(keys)[n]) else None
  }

  /** The two agree on the first name only; the menu that lists
      `keyAt(i)` for every `i < getSize()` breaks at its second line. */
  lemma AsWrittenMissesLaterKeys(keys: set<string>, n: int)
    ensures n == 0 ==> KeyAtAsWritten(keys, n) == NthKey(keys, n)
    ensures 0 < n < |keys| ==> KeyAtAsWritten(keys, n).None? && NthKey(keys, n).Some?
  {
  }

  /** The first name in map order is the least one. */
  lemma FirstKeyIsLeast(keys: set<string>)
    requires keys != {}
    ensures KeyAtAsWritten(keys, 0).Some? && IsLeast(KeyAtAsWritten(keys, 0).value, keys)
  {
    LeastExists(keys);
    var k :| IsLeast(k, keys);
    SortedKeysFirst(k, keys);
  }

  class Gestures {
    var gest: map<string, Gesture>

    constructor()
      ensures gest == map[]
    {
      gest := map[];
    }

    /** `gestures.gest[name] = ...` in the menu: a new name is added, an existing
        one is overwritten, and every other entry stays. */
    method Save(name: string, g: Gesture)
      modifies this
      ensures gest == old(gest)[name := g]
      ensures name in old(gest) ==> |gest| == |old(gest)|
      ensures name !in old(gest) ==> |gest| == |old(gest)| + 1
    {
      gest := gest[name := g];
    }

    /** Counts the entries by walking the map in order. */
    method GetSize() returns (n: int)
      ensures n == |gest|
    {
      n := 0;
      var rest := gest.Keys;
      while rest != {}
        invariant rest <= gest.Keys && n + |rest| == |gest.Keys|
        decreases |rest|
      {
        LeastExists(rest);
        var k :| k in rest && IsLeast(k, rest);
        rest := rest - {k};
        n := n + 1;
      }
    }

    /** The loop of `keyAt` as written, walking the map in order with a
        counter that stays 0. */
    method KeyAt(n: int) returns (r: Option<string>)
      ensures r == KeyAtAsWritten(gest.Keys, n)
    {
      var i := 0;
      var rest := gest.Keys;
      while rest != {}
        invariant rest <= gest.Keys
        invariant n == 0 ==> rest == gest.Keys
        decreases |rest|
      {
        LeastExists(rest);
        var k :| k in rest && IsLeast(k, rest);
        if i == n {
          SortedKeysFirst(k, rest);
          return Some(k);
        }
        rest := rest - {k};
      }
      return None;
    }

    /** `keyAt` with the counter advanced once per entry visited. */
    method KeyAtCorrected(n: int) returns (r: Option<string>)
      ensures r == NthKey(gest.Keys, n)
    {
      var i := 0;
      var rest := gest.Keys;
      ghost var all := SortedKeys(gest.Keys);
      ghost var seen: seq<string> := [];
      while rest != {}
        invariant all == seen + SortedKeys(rest)
        invariant i == |seen| && (n < 0 || i <= n)
        decreases |rest|
      {
        LeastExists(rest);
        var k :| k in rest && IsLeast(k, rest);
        VisitNext(all, seen, rest, k);
        if i == n {
          return Some(k);
        }
        seen := seen + [k];
        rest := rest - {k};
        i := i + 1;
      }
      return None;
    }
  }

  /** Templates are values: saving the recorder's result and then recording
      again leaves the saved template as it was. */
  method SaveThenRecordAgain(gestures: Gestures, recorder: Recording.GestureRecorder, name: string,
                             feed: seq<Sampling.Observation>)
    requires recorder.Valid() && Recording.RecordRun(Orientation.Origin, feed).Stopped?
    modifies gestures, recorder
    ensures gestures.gest == old(gestures.gest)[name := old(recorder.lastGesture)]
    ensures recorder.lastGesture.values == Recording.RecordRun(Orientation.Origin, feed).values
  {
    var g := recorder.GetGesture();
    gestures.Save(name, g);
    var polls := recorder.Record(feed);
  }
}
