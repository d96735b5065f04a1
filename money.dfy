/** Amounts of money held as denomination -> count maps, the sum of a list of
    amounts, and the two descending orders the change makers iterate in. */
module Money {

  /** The count stored under `k`, reading an absent key as zero. */
  function Get(m: map<int, int>, k: int): int {
    if k in m then m[k] else 0
  }

  /** The sum of a list of amounts, accumulated from the front as the source's loop does. */
  function Sum(s: seq<int>): int
    decreases |s|
  {
    if s == [] then 0 else Sum(s[..|s| - 1]) + s[|s| - 1]
  }

  function Min(a: int, b: int): int {
    if a <= b then a else b
  }

  /** The set of values occurring in a list. */
  function Elements(s: seq<int>): set<int> {
    set x | x in s
  }

  // ----- the largest element of a finite set -----

  lemma {:induction false} MaxExists(s: set<int>)
    requires s != {}
    ensures exists m :: m in s && forall j :: j in s ==> j <= m
    decreases s
  {
    assert !(forall y :: y !in s) by {
      if forall y :: y !in s {
        assert false;
      }
    }
    var x :| x in s;
    if s - {x} == {} {
      forall j | j in s ensures j <= x {
        assert j !in s - {x};
      }
    } else {
      MaxExists(s - {x});
      var m :| m in s - {x} && forall j :: j in s - {x} ==> j <= m;
      var top := if x <= m then m else x;
      forall j | j in s ensures j <= top {
        if j != x { assert j in s - {x}; }
      }
      assert top in s;
    }
  }

  function MaxOf(s: set<int>): (m: int)
    requires s != {}
    ensures m in s && forall j :: j in s ==> j <= m
  {
    MaxExists(s);
    var m :| m in s && forall j :: j in s ==> j <= m; m
  }

  // ----- descending orders -----

  predicate Descending(s: seq<int>) {
    forall i, j :: 0 <= i < j < |s| ==> s[i] >= s[j]
  }

  predicate StrictlyDescending(s: seq<int>) {
    forall i, j :: 0 <= i < j < |s| ==> s[i] > s[j]
  }

  /** Places `x` in front of the first element not larger than it. */
  function Insert(x: int, s: seq<int>): (r: seq<int>)
    ensures multiset(r) == multiset(s) + multiset{x}
    ensures Descending(s) ==> Descending(r)
    decreases |s|
  {
    if s == [] || x >= s[0] then [x] + s
    else
      var rest := Insert(x, s[1..]);
      assert s == [s[0]] + s[1..];
      if Descending(s) then InsertBelow(x, s, rest); [s[0]] + rest else [s[0]] + rest
  }

  /** Inserting below the head of a descending list keeps it descending. */
  lemma InsertBelow(x: int, s: seq<int>, rest: seq<int>)
    requires Descending(s) && s != [] && x < s[0]
    requires multiset(rest) == multiset(s[1..]) + multiset{x}
    requires Descending(rest)
    ensures Descending([s[0]] + rest)
  {
    forall y | y in rest ensures y <= s[0] {
      assert y in multiset(rest);
      if y != x {
        assert y in multiset(s[1..]);
        assert y in s[1..];
      }
    }
    var r := [s[0]] + rest;
    forall i, j | 0 <= i < j < |r| ensures r[i] >= r[j] {
      if i == 0 {
        assert r[j] == rest[j - 1] && r[j] in rest;
      } else {
        assert r[i] == rest[i - 1] && r[j] == rest[j - 1];
      }
    }
  }

  /** A list sorted from the largest value to the smallest, duplicates kept
      (PHP's `rsort`). */
  function SortDescending(s: seq<int>): (r: seq<int>)
    ensures multiset(r) == multiset(s)
    ensures Descending(r)
    decreases |s|
  {
    if s == [] then []
    else
      assert s == [s[0]] + s[1..];
      Insert(s[0], SortDescending(s[1..]))
  }

  /** A descending list is fixed by the multiset of values it holds. */
  lemma {:induction false} DescendingUnique(a: seq<int>, b: seq<int>)
    requires Descending(a) && Descending(b) && multiset(a) == multiset(b)
    ensures a == b
    decreases |a|
  {
    if a != [] {
      HeadsAgree(a, b);
      TailMultiset(a);
      TailMultiset(b);
      TailDescending(a);
      TailDescending(b);
      DescendingUnique(a[1..], b[1..]);
      assert a == [a[0]] + a[1..] && b == [b[0]] + b[1..];
    }
  }

  /** Two descending lists holding the same values start with the same one. */
  lemma HeadsAgree(a: seq<int>, b: seq<int>)
    requires Descending(a) && Descending(b) && multiset(a) == multiset(b) && a != []
    ensures b != [] && a[0] == b[0]
  {
    assert a[0] in multiset(a);
    assert b != [];
    assert b[0] in multiset(b);
    HeadIsMax(b, a[0]);
    HeadIsMax(a, b[0]);
  }

  lemma TailMultiset(a: seq<int>)
    requires a != []
    ensures multiset(a[1..]) == multiset(a) - multiset{a[0]}
  {
    assert a == [a[0]] + a[1..];
    assert multiset(a) == multiset{a[0]} + multiset(a[1..]);
  }

  lemma TailDescending(a: seq<int>)
    requires Descending(a) && a != []
    ensures Descending(a[1..])
  {
    forall i, j | 0 <= i < j < |a| - 1 ensures a[1..][i] >= a[1..][j] {
      assert a[1..][i] == a[i + 1] && a[1..][j] == a[j + 1];
    }
  }

  /** The head of a descending list is its largest value. */
  lemma HeadIsMax(s: seq<int>, x: int)
    requires Descending(s) && x in s
    ensures s[0] >= x
  {
    var j :| 0 <= j < |s| && s[j] == x;
    if j > 0 {
      assert s[0] >= s[j];
    }
  }

  /** The keys of a map listed from the largest to the smallest (the iteration
      order PHP's `krsort` gives an array). */
  function SortedKeys(keys: set<int>): (r: seq<int>)
    ensures StrictlyDescending(r)
    ensures forall k :: k in r <==> k in keys
    ensures |r| == |keys|
    decreases keys
  {
    if keys == {} then []
    else
      var m := MaxOf(keys);
      var rest := SortedKeys(keys - {m});
      assert forall k :: k in rest ==> k < m;
      [m] + rest
  }

  /** A strictly descending list is fixed by the values it holds. */
  lemma {:induction false} StrictlyDescendingUnique(a: seq<int>, b: seq<int>)
    requires StrictlyDescending(a) && StrictlyDescending(b)
    requires forall k :: k in a <==> k in b
    ensures a == b
    decreases |a|
  {
    if a != [] {
      assert a[0] in a;
      assert a[0] in b;
    }
    if b != [] {
      assert b[0] in b;
      assert b[0] in a;
    }
    if a != [] && b != [] {
      assert a[0] == b[0];
      forall k ensures k in a[1..] <==> k in b[1..] {
        assert k in a[1..] <==> k in a && k != a[0];
        assert k in b[1..] <==> k in b && k != b[0];
      }
      StrictlyDescendingUnique(a[1..], b[1..]);
      assert a == [a[0]] + a[1..] && b == [b[0]] + b[1..];
    }
  }

  // ----- the value of a denomination -> count map -----

  /** The face value of the counts `m` holds under `keys`. */
  function Worth(m: map<int, int>, keys: set<int>): int
    decreases keys
  {
    if keys == {} then 0
    else
      var k := MaxOf(keys);
      k * Get(m, k) + Worth(m, keys - {k})
  }

  /** Total face value of a change result or an inventory: the sum of d * count[d]. */
  function Value(m: map<int, int>): int {
    Worth(m, m.Keys)
  }

  /** Any key may be taken out first, not only the one Worth picks. */
  lemma {:induction false} WorthRemove(m: map<int, int>, keys: set<int>, k: int)
    requires k in keys
    ensures Worth(m, keys) == k * Get(m, k) + Worth(m, keys - {k})
    decreases keys
  {
    var p := MaxOf(keys);
    if p != k {
      WorthRemove(m, keys - {p}, k);
      WorthRemove(m, keys - {k}, p);
      assert keys - {p} - {k} == keys - {k} - {p};
    }
  }

  /** Worth is linear in the counts. */
  lemma {:induction false} WorthLinear(a: map<int, int>, b: map<int, int>, e: map<int, int>, c: map<int, int>, keys: set<int>)
    requires forall k :: k in keys ==> Get(c, k) == Get(a, k) - Get(b, k) + Get(e, k)
    ensures Worth(c, keys) == Worth(a, keys) - Worth(b, keys) + Worth(e, keys)
    decreases keys
  {
    if keys != {} {
      var k := MaxOf(keys);
      WorthLinear(a, b, e, c, keys - {k});
      Distribute(k, Get(a, k), Get(b, k), Get(e, k));
    }
  }

  /** Euclidean division splits an amount into whole bills and a remainder. */
  lemma DivMod(a: int, b: int)
    requires b > 0
    ensures b * (a / b) + a % b == a
  {
  }

  /** The whole bills of `d` in an amount `a` (PHP's `intdiv(a, d)`), by
      repeated subtraction. */
  function Quot(a: int, d: int): int
    requires d > 0
    decreases a
  {
    if a < d then 0 else 1 + Quot(a - d, d)
  }

  /** What is left of `a` once its whole bills of `d` are taken (PHP's `a % d`). */
  function Rem(a: int, d: int): int
    requires d > 0
    decreases a
  {
    if a < d then a else Rem(a - d, d)
  }

  /** The worth of `n` bills of `d`, by repeated addition. */
  function Times(d: int, n: int): int
    decreases if n < 0 then -n else n
  {
    if n == 0 then 0 else if n > 0 then Times(d, n - 1) + d else Times(d, n + 1) - d
  }

  /** On an amount that is not negative, Quot and Rem are integer division and
      remainder. */
  lemma {:induction false} QuotRem(a: int, d: int)
    requires d > 0 && a >= 0
    ensures Quot(a, d) == a / d && Rem(a, d) == a % d
    decreases a
  {
    if a >= d {
      QuotRem(a - d, d);
      DivMod(a - d, d);
      DivUnique(a, d, Quot(a, d), Rem(a, d));
    }
  }

  /** A quotient and remainder in range are the ones division gives. */
  lemma DivUnique(a: int, d: int, q: int, r: int)
    requires d > 0 && a == d * q + r && 0 <= r < d
    ensures q == a / d && r == a % d
  {
    DivMod(a, d);
    AtLeastOne(d, q - a / d);
    AtLeastOne(d, a / d - q);
  }

  /** At least one bill is worth at least one bill. */
  lemma {:induction false} AtLeastOne(d: int, x: int)
    requires d > 0
    ensures x >= 1 ==> d * x >= d
    decreases if x < 0 then 0 else x
  {
    if x > 1 {
      AtLeastOne(d, x - 1);
    }
  }

  lemma {:induction false} TimesMul(d: int, n: int)
    ensures Times(d, n) == d * n
    decreases if n < 0 then -n else n
  {
    if n > 0 {
      TimesMul(d, n - 1);
    } else if n < 0 {
      TimesMul(d, n + 1);
    }
  }

  lemma Distribute(k: int, x: int, y: int, z: int)
    ensures k * (x - y + z) == k * x - k * y + k * z
  {
  }

  /** Keys that hold no count add nothing to the worth. */
  lemma {:induction false} WorthExtend(m: map<int, int>, keys: set<int>, extra: set<int>)
    requires forall k :: k in extra ==> Get(m, k) == 0
    ensures Worth(m, keys + extra) == Worth(m, keys)
    decreases extra
  {
    if extra != {} {
      var x := MaxOf(extra);
      WorthExtend(m, keys, extra - {x});
      if x in keys {
        assert keys + extra == keys + (extra - {x});
      } else {
        WorthRemove(m, keys + extra, x);
        assert (keys + extra) - {x} == keys + (extra - {x});
        assert x * Get(m, x) == 0;
      }
    } else {
      assert keys + extra == keys;
    }
  }

  /** The worth over any key set covering the map's keys is its value. */
  lemma ValueOver(m: map<int, int>, keys: set<int>)
    requires m.Keys <= keys
    ensures Worth(m, keys) == Value(m)
  {
    WorthExtend(m, m.Keys, keys - m.Keys);
    assert m.Keys + (keys - m.Keys) == keys;
  }

  /** Recording `c` units of a new denomination `d` adds d * c to the value. */
  lemma ValueInsert(m: map<int, int>, d: int, c: int)
    requires d !in m
    ensures Value(map[d := c] + m) == d * c + Value(m)
  {
    var n := map[d := c] + m;
    assert n.Keys == m.Keys + {d};
    WorthRemove(n, n.Keys, d);
    assert n.Keys - {d} == m.Keys;
    WorthLinear(m, map[], map[], n, m.Keys);
    assert Worth(map[], m.Keys) == 0 by { WorthZero(m.Keys); }
  }

  lemma {:induction false} WorthZero(keys: set<int>)
    ensures Worth(map[], keys) == 0
    decreases keys
  {
    if keys != {} {
      WorthZero(keys - {MaxOf(keys)});
    }
  }

  /** No bills are worth nothing. */
  lemma ValueEmpty()
    ensures Value(map[]) == 0
  {
    var none: map<int, int> := map[];
    assert none.Keys == {};
    WorthZero({});
  }

  /** How many times each amount occurs in a list. */
  function Tally(s: seq<int>): map<int, int> {
    map k | k in Elements(s) :: multiset(s)[k]
  }

  lemma TallyGet(s: seq<int>, k: int)
    ensures Get(Tally(s), k) == multiset(s)[k]
  {
    if k !in Elements(s) {
      assert k !in multiset(s);
    }
  }

  /** One more amount `x` adds one to its tally. */
  lemma TallyAppend(init: seq<int>, x: int)
    ensures forall k :: k in Elements(init + [x]) ==>
      Get(Tally(init + [x]), k) == Get(Tally(init), k) - Get(map[], k) + Get(map[x := 1], k)
  {
    assert multiset(init + [x]) == multiset(init) + multiset{x};
    forall k | k in Elements(init + [x])
      ensures Get(Tally(init + [x]), k) == Get(Tally(init), k) - Get(map[], k) + Get(map[x := 1], k)
    {
      TallyGet(init + [x], k);
      TallyGet(init, k);
    }
  }

  /** The amounts of a list are worth their sum. */
  lemma {:induction false} TallyValue(s: seq<int>)
    ensures Value(Tally(s)) == Sum(s)
    decreases |s|
  {
    if s == [] {
      assert Tally(s) == map[];
      WorthZero({});
    } else {
      var init, x := s[..|s| - 1], s[|s| - 1];
      assert s == init + [x];
      TallyValue(init);
      var keys := Elements(s);
      assert Tally(s).Keys == keys;
      TallyAppend(init, x);
      WorthLinear(Tally(init), map[], map[x := 1], Tally(s), keys);
      WorthZero(keys);
      ValueOver(Tally(init), keys);
      ValueOver(map[x := 1], keys);
      UnitValue(x);
    }
  }

  lemma UnitValue(x: int)
    ensures Value(map[x := 1]) == x
  {
    ValueInsert(map[], x, 1);
    assert map[x := 1] + map[] == map[x := 1];
    WorthZero({});
  }
}
