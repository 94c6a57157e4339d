/** Small datatypes and sequence facts shared by the models. */
module Common {

  datatype Option<+T> = None | Some(value: T)

  /** The model's layers, the experts of one layer, and how many a token selects. */
  const LAYERS: nat := 48
  const EXPERTS: nat := 512
  const TOP_K: nat := 10

  /** The bytes of one expert record. */
  const PAYLOAD_BYTES: nat := 2_764_800

  type Byte = x: nat | x < 256

  datatype Tally = Tally(hits: nat, misses: nat)

  function Plus(t: Tally, hit: bool): Tally {
    if hit then t.(hits := t.hits + 1) else t.(misses := t.misses + 1)
  }

  function Pow2(n: nat): (p: nat)
    ensures p > 0
  {
    if n == 0 then 1 else 2 * Pow2(n - 1)
  }

  /** The share of demands that hit; no demand has no share. */
  function HitFraction(hits: nat, misses: nat): (share: Option<real>)
    ensures share.Some? <==> hits + misses > 0
    ensures share.Some? ==> share.value * (hits + misses) as real == hits as real
  {
    if hits + misses == 0 then None else Some(hits as real / (hits + misses) as real)
  }

  /** A Python `ValueError` or a C++ exception becomes `Err`. */
  datatype Result<+T> = Ok(value: T) | Err {
    predicate IsFailure() {
      Err?
    }

    function PropagateFailure<U>(): Result<U>
      requires Err?
    {
      Err
    }

    function Extract(): T
      requires Ok?
    {
      value
    }
  }

  ghost predicate Distinct<T>(s: seq<T>) {
    forall i, j :: 0 <= i < j < |s| ==> s[i] != s[j]
  }

  function Elements<T>(s: seq<T>): set<T> {
    set x | x in s
  }

  lemma ElementsHold<T>(s: seq<T>)
    ensures forall i :: 0 <= i < |s| ==> s[i] in Elements(s)
  {
  }

  lemma DistinctConcat<T>(a: seq<T>, b: seq<T>)
    ensures Distinct(a + b) <==> Distinct(a) && Distinct(b) && forall x :: x in a ==> x !in b
  {
    var c := a + b;
    if Distinct(c) {
      forall i, j | 0 <= i < j < |a|
        ensures a[i] != a[j]
      {
        assert c[i] != c[j];
      }
      forall i, j | 0 <= i < j < |b|
        ensures b[i] != b[j]
      {
        assert c[|a| + i] != c[|a| + j];
      }
      forall i, j | 0 <= i < |a| && 0 <= j < |b|
        ensures a[i] != b[j]
      {
        assert c[i] != c[|a| + j];
      }
    } else if Distinct(a) && Distinct(b) && forall x :: x in a ==> x !in b {
      forall i, j | 0 <= i < j < |c|
        ensures c[i] != c[j]
      {
        if |a| <= i {
          assert b[i - |a|] != b[j - |a|];
        } else if |a| <= j {
          assert c[i] in a && c[j] in b;
        }
      }
    }
  }

  lemma {:induction false} DistinctCount<T>(s: seq<T>)
    requires Distinct(s)
    ensures |Elements(s)| == |s|
  {
    if s != [] {
      DistinctCount(s[1..]);
      assert Elements(s) == {s[0]} + Elements(s[1..]);
    }
  }

  function Sum(s: seq<nat>): nat {
    if s == [] then 0 else Sum(s[..|s| - 1]) + s[|s| - 1]
  }

  lemma {:induction false} SumBump(s: seq<nat>, i: nat)
    requires i < |s|
    ensures Sum(s[i := s[i] + 1]) == Sum(s) + 1
  {
    var bumped := s[i := s[i] + 1];
    var front := s[..|s| - 1];
    if i < |front| {
      SumBump(front, i);
      assert bumped[..|bumped| - 1] == front[i := front[i] + 1];
    } else {
      assert bumped[..|bumped| - 1] == front;
    }
  }

  lemma {:induction false} SumZero(n: nat)
    ensures Sum(seq(n, _ => 0)) == 0
  {
    if n > 0 {
      SumZero(n - 1);
      assert seq(n, _ => 0)[..n - 1] == seq(n - 1, _ => 0);
    }
  }

  ghost predicate Increasing(s: seq<int>) {
    forall i, j :: 0 <= i < j < |s| ==> s[i] < s[j]
  }

  function Insert(s: seq<int>, x: int): seq<int> {
    if s == [] || x < s[0] then [x] + s
    else if x == s[0] then s
    else [s[0]] + Insert(s[1..], x)
  }

  lemma ConsElements<T>(x: T, s: seq<T>)
    ensures Elements([x] + s) == {x} + Elements(s)
  {
  }

  lemma ConsIncreasing(x: int, s: seq<int>)
    requires Increasing(s) && forall y :: y in Elements(s) ==> x < y
    ensures Increasing([x] + s)
  {
    ElementsHold(s);
  }

  lemma FirstIsLeast(s: seq<int>)
    requires Increasing(s) && s != []
    ensures Increasing(s[1..]) && s == [s[0]] + s[1..]
    ensures forall y :: y in Elements(s[1..]) ==> s[0] < y
  {
    var rest := s[1..];
    forall y | y in Elements(rest)
      ensures s[0] < y
    {
      var i :| 0 <= i < |rest| && rest[i] == y;
      assert s[i + 1] == y;
    }
  }

  lemma InsertsFirst(s: seq<int>, x: int)
    requires Increasing(s) && s != [] && x < s[0]
    ensures Increasing([x] + s) && Elements([x] + s) == Elements(s) + {x}
  {
    ConsElements(x, s);
    FirstIsLeast(s);
    ConsElements(s[0], s[1..]);
    ConsIncreasing(x, s);
  }

  lemma {:induction false} InsertKeeps(s: seq<int>, x: int)
    requires Increasing(s)
    ensures Increasing(Insert(s, x))
    ensures Elements(Insert(s, x)) == Elements(s) + {x}
  {
    if s == [] {
    } else if x < s[0] {
      InsertsFirst(s, x);
    } else if x == s[0] {
      FirstIsElement(s);
    } else {
      FirstIsLeast(s);
      InsertKeeps(s[1..], x);
      hide Increasing, Elements;
      InsertsLater(s, x, Insert(s[1..], x));
    }
  }

  lemma FirstIsElement(s: seq<int>)
    requires s != []
    ensures Elements(s) + {s[0]} == Elements(s)
  {
  }

  lemma InsertsLater(s: seq<int>, x: int, rest: seq<int>)
    requires s != [] && Increasing(s) && s[0] < x
    requires Increasing(rest) && Elements(rest) == Elements(s[1..]) + {x}
    ensures Increasing([s[0]] + rest) && Elements([s[0]] + rest) == Elements(s) + {x}
  {
    FirstIsLeast(s);
    ConsElements(s[0], s[1..]);
    ConsElements(s[0], rest);
    hide Increasing, Elements;
    ConsIncreasing(s[0], rest);
  }

  /** The distinct members, ascending. */
  function Ascending(s: seq<int>): seq<int> {
    if s == [] then [] else Insert(Ascending(s[..|s| - 1]), s[|s| - 1])
  }

  lemma {:induction false} AscendingSorts(s: seq<int>)
    ensures Increasing(Ascending(s))
    ensures Elements(Ascending(s)) == Elements(s)
  {
    if s != [] {
      var front, last := s[..|s| - 1], s[|s| - 1];
      AscendingSorts(front);
      InsertKeeps(Ascending(front), last);
      assert s == front + [last];
      assert Elements(s) == Elements(front) + {last};
    }
  }

  lemma {:induction false} InsertGrows(s: seq<int>, x: int)
    ensures |s| <= |Insert(s, x)| <= |s| + 1
  {
    if s != [] && x > s[0] {
      InsertGrows(s[1..], x);
    }
  }

  lemma {:induction false} AscendingShortens(s: seq<int>)
    ensures |Ascending(s)| <= |s|
  {
    if s != [] {
      AscendingShortens(s[..|s| - 1]);
      InsertGrows(Ascending(s[..|s| - 1]), s[|s| - 1]);
    }
  }

  lemma IncreasingIsDistinct(s: seq<int>)
    requires Increasing(s)
    ensures Distinct(s) && |Elements(s)| == |s|
  {
    DistinctCount(s);
  }

  lemma {:induction false} FewerElements<T>(s: seq<T>)
    ensures |Elements(s)| <= |s|
    ensures |Elements(s)| == |s| <==> Distinct(s)
  {
    if s != [] {
      var front, last := s[..|s| - 1], s[|s| - 1];
      FewerElements(front);
      assert s == front + [last];
      assert Elements(s) == Elements(front) + {last};
      DistinctConcat(front, [last]);
      assert last in Elements(front) <==> last in front;
    }
  }

  /** As many members as places exactly when none repeats. */
  lemma AscendingIsAll(s: seq<int>)
    ensures |Ascending(s)| == |s| <==> Distinct(s)
  {
    AscendingSorts(s);
    IncreasingIsDistinct(Ascending(s));
    FewerElements(s);
  }

  lemma FrontIsLess(s: seq<int>)
    requires Increasing(s) && s != []
    ensures var front, last := s[..|s| - 1], s[|s| - 1];
      Increasing(front) && (forall e :: e in front ==> e < last) && (forall e :: e in s <==> e in front || e == last)
  {
    var front, last := s[..|s| - 1], s[|s| - 1];
    assert s == front + [last];
    forall e | e in front
      ensures e < last
    {
      var i :| 0 <= i < |front| && front[i] == e;
      assert s[i] < s[|front|];
    }
  }

  lemma LastsAgree(a: seq<int>, b: seq<int>)
    requires Increasing(a) && Increasing(b) && a != [] && forall x :: x in a <==> x in b
    ensures b != [] && a[|a| - 1] == b[|b| - 1]
  {
    var last := a[|a| - 1];
    assert last in a;
    var k :| 0 <= k < |b| && b[k] == last;
    assert b[|b| - 1] in b;
    var l :| 0 <= l < |a| && a[l] == b[|b| - 1];
    assert a[l] <= last && b[k] <= b[|b| - 1];
  }

  /** Two ascending sequences of the same members are the same. */
  lemma {:induction false} IncreasingIsUnique(a: seq<int>, b: seq<int>)
    requires Increasing(a) && Increasing(b) && forall x :: x in a <==> x in b
    ensures a == b
  {
    if a == [] {
      assert forall i :: 0 <= i < |b| ==> b[i] in a;
    } else {
      LastsAgree(a, b);
      FrontIsLess(a);
      FrontIsLess(b);
      hide Increasing;
      var m, n := |a| - 1, |b| - 1;
      IncreasingIsUnique(a[..m], b[..n]);
      assert a == a[..m] + [a[m]] && b == b[..n] + [b[n]];
    }
  }

  /** Ten distinct experts for each token. */
  predicate TopRoutes(routes: seq<int>, tokens: int) {
    && |routes| == tokens * TOP_K
    && (forall i :: 0 <= i < |routes| ==> 0 <= routes[i] < EXPERTS)
    && forall g :: 0 <= g < tokens ==> |Ascending(routes[g * TOP_K..(g + 1) * TOP_K])| == TOP_K
  }

  /** No token selects an expert twice. */
  lemma TopRoutesIff(routes: seq<int>, tokens: int)
    ensures TopRoutes(routes, tokens) <==>
      && |routes| == tokens * TOP_K
      && (forall i :: 0 <= i < |routes| ==> 0 <= routes[i] < EXPERTS)
      && forall g :: 0 <= g < tokens ==> Distinct(routes[g * TOP_K..(g + 1) * TOP_K])
  {
    if |routes| == tokens * TOP_K {
      forall g | 0 <= g < tokens
        ensures |Ascending(routes[g * TOP_K..(g + 1) * TOP_K])| == TOP_K
           <==> Distinct(routes[g * TOP_K..(g + 1) * TOP_K])
      {
        AscendingIsAll(routes[g * TOP_K..(g + 1) * TOP_K]);
      }
    }
  }
}
