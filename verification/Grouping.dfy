/** Stable grouping of a sequence by a key: what it means to put every element into the bucket of its key,
  * buckets in the order their keys first appear, elements inside a bucket in their old order. */
module Grouping {
  import opened Sequences

  /** The elements of `s` whose key is `k`, in their order in `s`. */
  ghost function Select<T, K>(f: T -> K, k: K, s: seq<T>): seq<T> {
    if s == [] then [] else
      Select(f, k, s[..|s| - 1]) + (if f(s[|s| - 1]) == k then [s[|s| - 1]] else [])
  }

  /** The keys of `s`, each once, in order of first appearance. */
  ghost function FirstSeen<T, K>(f: T -> K, s: seq<T>): seq<K> {
    if s == [] then [] else
      var seen := FirstSeen(f, s[..|s| - 1]);
      if f(s[|s| - 1]) in seen then seen else seen + [f(s[|s| - 1])]
  }

  ghost function Concat<T>(parts: seq<seq<T>>): seq<T> {
    if parts == [] then [] else Concat(parts[..|parts| - 1]) + parts[|parts| - 1]
  }

  ghost predicate AllKeyed<T, K>(f: T -> K, k: K, s: seq<T>) {
    forall x :: x in s ==> f(x) == k
  }

  /** Part `i` holds only elements with key `ks[i]`. */
  ghost predicate PartsKeyed<T, K>(f: T -> K, ks: seq<K>, parts: seq<seq<T>>) {
    |parts| == |ks| && forall i :: 0 <= i < |ks| ==> AllKeyed(f, ks[i], parts[i])
  }

  lemma {:induction false} SelectIsKeyed<T, K>(f: T -> K, k: K, s: seq<T>)
    ensures AllKeyed(f, k, Select(f, k, s))
  {
    if s == [] {
    } else {
      SelectIsKeyed(f, k, s[..|s| - 1]);
    }
  }

  /** The key of an element decides whether it is selected; nothing else gets in. */
  lemma {:induction false} SelectMembers<T, K>(f: T -> K, k: K, s: seq<T>, x: T)
    ensures x in Select(f, k, s) <==> x in s && f(x) == k
  {
    if s == [] {
    } else {
      SelectMembers(f, k, s[..|s| - 1], x);
      assert s == s[..|s| - 1] + [s[|s| - 1]];
    }
  }

  lemma SelectSnoc<T, K>(f: T -> K, k: K, s: seq<T>, x: T)
    ensures Select(f, k, s + [x]) == if f(x) == k then Select(f, k, s) + [x] else Select(f, k, s)
  {
    assert (s + [x])[..|s|] == s;
  }

  lemma FirstSeenSnoc<T, K>(f: T -> K, s: seq<T>, x: T)
    ensures FirstSeen(f, s + [x]) == if f(x) in FirstSeen(f, s) then FirstSeen(f, s) else FirstSeen(f, s) + [f(x)]
  {
    assert (s + [x])[..|s|] == s;
  }

  lemma {:induction false} SelectAppend<T, K>(f: T -> K, k: K, a: seq<T>, b: seq<T>)
    ensures Select(f, k, a + b) == Select(f, k, a) + Select(f, k, b)
  {
    if b == [] {
      assert a + b == a;
    } else {
      SelectAppend(f, k, a, b[..|b| - 1]);
      assert (a + b)[..|a + b| - 1] == a + b[..|b| - 1];
    }
  }

  lemma {:induction false} SelectUniform<T, K>(f: T -> K, k: K, j: K, s: seq<T>)
    requires AllKeyed(f, j, s)
    ensures Select(f, k, s) == if j == k then s else []
  {
    if s == [] {
    } else {
      assert s[|s| - 1] in s;
      assert AllKeyed(f, j, s[..|s| - 1]);
      SelectUniform(f, k, j, s[..|s| - 1]);
      assert s == s[..|s| - 1] + [s[|s| - 1]];
    }
  }

  lemma {:induction false} SelectNothing<T, K>(f: T -> K, k: K, s: seq<T>)
    requires forall x :: x in s ==> f(x) != k
    ensures Select(f, k, s) == []
  {
    if s == [] {
    } else {
      assert s[|s| - 1] in s;
      SelectNothing(f, k, s[..|s| - 1]);
    }
  }

  lemma {:induction false} PartsPrefix<T, K>(f: T -> K, ks: seq<K>, parts: seq<seq<T>>)
    requires PartsKeyed(f, ks, parts) && ks != []
    ensures PartsKeyed(f, ks[..|ks| - 1], parts[..|parts| - 1])
  {
  }

  lemma {:induction false} SelectMissing<T, K>(f: T -> K, ks: seq<K>, parts: seq<seq<T>>, k: K)
    requires PartsKeyed(f, ks, parts) && k !in ks
    ensures Select(f, k, Concat(parts)) == []
  {
    if ks == [] {
    } else {
      PartsPrefix(f, ks, parts);
      SelectMissing(f, ks[..|ks| - 1], parts[..|ks| - 1], k);
      SelectAppend(f, k, Concat(parts[..|ks| - 1]), parts[|ks| - 1]);
      SelectUniform(f, k, ks[|ks| - 1], parts[|ks| - 1]);
    }
  }

  /** Concatenating buckets with different keys and selecting one key gives back that bucket. */
  lemma {:induction false} SelectConcat<T, K>(f: T -> K, ks: seq<K>, parts: seq<seq<T>>, i: nat)
    requires PartsKeyed(f, ks, parts) && Distinct(ks) && i < |ks|
    ensures Select(f, ks[i], Concat(parts)) == parts[i]
  {
    hide Select, AllKeyed;
    var last := |ks| - 1;
    PartsPrefix(f, ks, parts);
    SelectAppend(f, ks[i], Concat(parts[..last]), parts[last]);
    SelectUniform(f, ks[i], ks[last], parts[last]);
    if i < last {
      SelectConcat(f, ks[..last], parts[..last], i);
    } else {
      SelectMissing(f, ks[..last], parts[..last], ks[i]);
    }
  }

  lemma {:induction false} FirstSeenMembers<T, K>(f: T -> K, s: seq<T>, x: T)
    ensures x in s ==> f(x) in FirstSeen(f, s)
  {
    if s == [] {
    } else {
      FirstSeenMembers(f, s[..|s| - 1], x);
      assert s == s[..|s| - 1] + [s[|s| - 1]];
    }
  }

  /** The keys are listed once each, and every listed key has an element. */
  lemma {:induction false} FirstSeenDistinct<T, K>(f: T -> K, s: seq<T>)
    ensures Distinct(FirstSeen(f, s))
    ensures forall k :: k in FirstSeen(f, s) ==> Select(f, k, s) != []
  {
    if s == [] {
    } else {
      FirstSeenDistinct(f, s[..|s| - 1]);
    }
  }

  lemma {:induction false} FirstSeenAppend<T, K>(f: T -> K, a: seq<T>, b: seq<T>, k: K)
    requires AllKeyed(f, k, b) && b != []
    ensures FirstSeen(f, a + b) == if k in FirstSeen(f, a) then FirstSeen(f, a) else FirstSeen(f, a) + [k]
  {
    var n := |b| - 1;
    assert (a + b)[..|a + b| - 1] == a + b[..n];
    assert b[n] in b;
    if n > 0 {
      assert AllKeyed(f, k, b[..n]);
      FirstSeenAppend(f, a, b[..n], k);
    } else {
      assert a + b[..n] == a;
    }
  }

  /** Concatenating nonempty buckets keeps the order of their keys. */
  lemma {:induction false} FirstSeenConcat<T, K>(f: T -> K, ks: seq<K>, parts: seq<seq<T>>)
    requires PartsKeyed(f, ks, parts) && Distinct(ks)
    requires forall i :: 0 <= i < |parts| ==> parts[i] != []
    ensures FirstSeen(f, Concat(parts)) == ks
  {
    hide FirstSeen;
    if ks != [] {
      var last := |ks| - 1;
      PartsPrefix(f, ks, parts);
      FirstSeenConcat(f, ks[..last], parts[..last]);
      assert ks[last] !in ks[..last] && parts[last] != [];
      FirstSeenAppend(f, Concat(parts[..last]), parts[last], ks[last]);
      assert ks == ks[..last] + [ks[last]];
    } else {
      FirstSeenNothing(f);
    }
  }

  lemma FirstSeenNothing<T, K>(f: T -> K)
    ensures FirstSeen(f, []) == []
  {
  }

  lemma AppendOne<T>(s: seq<T>, last: T, x: T)
    ensures multiset(s + [last])[x] == multiset(s)[x] + (if last == x then 1 else 0)
  {
    assert multiset(s + [last]) == multiset(s) + multiset{last};
  }

  lemma {:induction false} CountInSelection<T, K>(f: T -> K, s: seq<T>, x: T)
    ensures multiset(s)[x] == multiset(Select(f, f(x), s))[x]
  {
    if s == [] {
    } else {
      var n := |s| - 1;
      CountInSelection(f, s[..n], x);
      AppendOne(s[..n], s[n], x);
      assert s == s[..n] + [s[n]];
      AppendOne(Select(f, f(x), s[..n]), s[n], x);
    }
  }

  /** Two sequences whose buckets agree up to order agree up to order. */
  lemma SameBuckets<T, K>(f: T -> K, a: seq<T>, b: seq<T>)
    requires forall k :: multiset(Select(f, k, a)) == multiset(Select(f, k, b))
    ensures multiset(a) == multiset(b)
  {
    forall x: T ensures multiset(a)[x] == multiset(b)[x] {
      CountInSelection(f, a, x);
      CountInSelection(f, b, x);
      assert multiset(Select(f, f(x), a)) == multiset(Select(f, f(x), b));
    }
  }
}
