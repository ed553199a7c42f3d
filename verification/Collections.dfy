/** JavaScript's insertion-ordered Map and Set, and the few facts about duplicate-free sequences they need. */
module Collections {
  predicate NoDup<T(==)>(s: seq<T>) {
    forall i, j | 0 <= i < j < |s| :: s[i] != s[j]
  }

  /** `Set.add`: an element keeps its first place. */
  function Add<T(==,!new)>(s: seq<T>, x: T): (r: seq<T>)
    ensures forall y :: y in r <==> y in s || y == x
    ensures NoDup(s) ==> NoDup(r)
    ensures s <= r && (x in s ==> |r| == |s|)
  {
    if x in s then s else s + [x]
  }

  /** `Set.delete`. */
  function Drop<T(==,!new)>(s: seq<T>, x: T): (r: seq<T>)
    ensures forall y :: y in r <==> y in s && y != x
    ensures NoDup(s) ==> NoDup(r)
  {
    if |s| == 0 then []
    else
      assert NoDup(s) ==> NoDup(s[1..]) && s[0] !in s[1..];
      if s[0] == x then Drop(s[1..], x) else [s[0]] + Drop(s[1..], x)
  }

  function Filter<T(!new)>(p: T -> bool, s: seq<T>): (r: seq<T>)
    ensures |r| <= |s|
  {
    if |s| == 0 then []
    else Filter(p, s[..|s| - 1]) + (if p(s[|s| - 1]) then [s[|s| - 1]] else [])
  }

  lemma FilterSnoc<T(!new)>(p: T -> bool, s: seq<T>, x: T)
    ensures Filter(p, s + [x]) == if p(x) then Filter(p, s) + [x] else Filter(p, s)
  {
    assert (s + [x])[..|s + [x]| - 1] == s;
  }

  lemma {:induction false} FilterMembers<T(!new)>(p: T -> bool, s: seq<T>)
    ensures forall y :: y in Filter(p, s) <==> y in s && p(y)
  {
    if |s| == 0 {
    } else {
      FilterMembers(p, s[..|s| - 1]);
    }
  }

  lemma {:induction false} FilterNoDup<T(!new)>(p: T -> bool, s: seq<T>)
    requires NoDup(s)
    ensures NoDup(Filter(p, s))
  {
    if |s| == 0 {
    } else {
      FilterNoDup(p, s[..|s| - 1]);
      FilterMembers(p, s[..|s| - 1]);
    }
  }

  lemma {:induction false} FilterAppend<T(!new)>(p: T -> bool, s: seq<T>, t: seq<T>)
    ensures Filter(p, s + t) == Filter(p, s) + Filter(p, t)
  {
    if |t| == 0 {
      assert s + t == s;
    } else {
      var n := |t| - 1;
      FilterAppend(p, s, t[..n]);
      assert (s + t)[..|s + t| - 1] == s + t[..n];
      assert (s + t)[|s + t| - 1] == t[n];
    }
  }

  lemma {:induction false} FilterCommutes<T(!new)>(p: T -> bool, q: T -> bool, s: seq<T>)
    ensures Filter(p, Filter(q, s)) == Filter(q, Filter(p, s))
  {
    if |s| == 0 {
    } else {
      var front, x := s[..|s| - 1], s[|s| - 1];
      FilterCommutes(p, q, front);
      FilterAppend(p, Filter(q, front), if q(x) then [x] else []);
      FilterAppend(q, Filter(p, front), if p(x) then [x] else []);
    }
  }

  lemma {:induction false} NoDupCounts<T>(s: seq<T>, x: T)
    requires NoDup(s)
    ensures multiset(s)[x] == if x in s then 1 else 0
  {
    if |s| == 0 {
    } else {
      var n := |s| - 1;
      assert s == s[..n] + [s[n]];
      NoDupCounts(s[..n], x);
    }
  }

  lemma NoDupAppend<T>(s: seq<T>, x: T)
    ensures NoDup(s + [x]) <==> NoDup(s) && x !in s
  {
    var t := s + [x];
    if NoDup(t) {
      forall i, j | 0 <= i < j < |s| ensures s[i] != s[j] {
        assert t[i] != t[j];
      }
      forall i | 0 <= i < |s| ensures s[i] != x {
        assert t[i] != t[|s|];
      }
    }
  }

  /** Two duplicate-free sequences with the same elements are permutations of each other. */
  lemma NoDupPermutation<T>(s: seq<T>, t: seq<T>)
    requires NoDup(s) && NoDup(t)
    requires forall x :: x in s <==> x in t
    ensures multiset(s) == multiset(t)
  {
    forall x ensures multiset(s)[x] == multiset(t)[x] {
      NoDupCounts(s, x);
      NoDupCounts(t, x);
    }
  }

  /** The values of a map listed in the order of some keys. */
  function Select<K(==), V>(m: map<K, V>, ks: seq<K>): (r: seq<V>)
    requires forall k | k in ks :: k in m
    ensures |r| == |ks| && forall i | 0 <= i < |ks| :: r[i] == m[ks[i]]
  {
    seq(|ks|, i requires 0 <= i < |ks| => m[ks[i]])
  }

  lemma SelectAppend<K, V>(m: map<K, V>, s: seq<K>, t: seq<K>)
    requires forall k | k in s :: k in m
    requires forall k | k in t :: k in m
    ensures forall k | k in s + t :: k in m
    ensures Select(m, s + t) == Select(m, s) + Select(m, t)
  {
  }

  lemma SelectWithout<K, V>(m: map<K, V>, t: seq<K>, i: nat)
    requires i < |t| && forall k | k in t :: k in m
    ensures var rest := t[..i] + t[i + 1..];
      && (forall k | k in rest :: k in t)
      && multiset(rest) == multiset(t) - multiset{t[i]}
      && multiset(Select(m, t)) == multiset(Select(m, rest)) + multiset{m[t[i]]}
  {
    var front, back := t[..i], t[i + 1..];
    assert t == front + ([t[i]] + back);
    SelectAppend(m, front, [t[i]] + back);
    SelectAppend(m, [t[i]], back);
    SelectAppend(m, front, back);
    assert Select(m, [t[i]]) == [m[t[i]]];
  }

  lemma {:induction false} SelectPermutation<K, V>(m: map<K, V>, s: seq<K>, t: seq<K>)
    requires multiset(s) == multiset(t)
    requires forall k | k in s :: k in m
    requires forall k | k in t :: k in m
    ensures multiset(Select(m, s)) == multiset(Select(m, t))
    decreases |s|
  {
    if |s| == 0 {
      assert |t| == |multiset(t)| == 0;
    } else {
      assert s[0] in multiset(t);
      var i :| 0 <= i < |t| && t[i] == s[0];
      SelectWithout(m, s, 0);
      SelectWithout(m, t, i);
      SelectPermutation(m, s[..0] + s[1..], t[..i] + t[i + 1..]);
    }
  }

  /** An insertion-ordered map: `order` lists the keys, each once. */
  datatype OMap<K(==,!new), V> = OMap(order: seq<K>, m: map<K, V>) {
    ghost predicate Valid() {
      NoDup(order) && forall k :: k in order <==> k in m
    }

    function Put(k: K, v: V): (r: OMap<K, V>)
      ensures Valid() ==> r.Valid()
    {
      OMap(Add(order, k), m[k := v])
    }

    function Remove(k: K): (r: OMap<K, V>)
      ensures Valid() ==> r.Valid()
    {
      OMap(Drop(order, k), m - {k})
    }

    function Values(): seq<V>
      requires Valid()
    {
      assert forall k | k in order :: k in m;
      Select(m, order)
    }
  }
}
