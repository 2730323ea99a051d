/** Vocabulary shared by the components. */
module Common {

  datatype Option<+T> = None | Some(value: T)

  datatype Result<+T, +E> = Ok(value: T) | Err(error: E)

  /** A Redis key with a TTL is readable strictly before its expiry instant. */
  predicate Live(expiresAt: int, now: int) {
    now < expiresAt
  }

  /** A Redis counter with its expiry instant. */
  datatype Counter = Counter(count: nat, expiresAt: int)

  /** The Lua script all limiters run: INCR, and EXPIRE only when the count is 1. */
  function IncrWithExpire(stored: Option<Counter>, now: int, ttl: int): Counter {
    if stored.Some? && Live(stored.value.expiresAt, now)
    then Counter(stored.value.count + 1, stored.value.expiresAt)
    else Counter(1, now + ttl)
  }

  function Elements<T>(s: seq<T>): set<T> {
    set x | x in s
  }

  /** How many elements of `s` satisfy `p`. */
  ghost function Count<T>(s: seq<T>, p: T -> bool): nat {
    if s == [] then 0
    else Count(s[..|s| - 1], p) + if p(s[|s| - 1]) then 1 else 0
  }

  /** What one more element does to a count. */
  lemma CountPush<T>(s: seq<T>, x: T, p: T -> bool)
    ensures Count(s + [x], p) == Count(s, p) + if p(x) then 1 else 0
  {
  }

  lemma {:induction false} CountAppend<T>(s: seq<T>, t: seq<T>, p: T -> bool)
    ensures Count(s + t, p) == Count(s, p) + Count(t, p)
  {
    if t == [] {
      assert s + t == s;
    } else {
      var front, last := t[..|t| - 1], t[|t| - 1];
      CountAppend(s, front, p);
      assert (s + t)[..|s + t| - 1] == s + front;
    }
  }

  lemma Occurrence<T>(t: seq<T>, x: T) returns (before: seq<T>, after: seq<T>)
    requires x in t
    ensures t == before + [x] + after && multiset(t) == multiset(before + after) + multiset{x}
  {
    var i :| 0 <= i < |t| && t[i] == x;
    before, after := t[..i], t[i + 1..];
    assert t == before + [x] + after;
  }

  lemma CountMiddle<T>(before: seq<T>, x: T, after: seq<T>, p: T -> bool)
    ensures Count(before + [x] + after, p) == Count(before + after, p) + if p(x) then 1 else 0
  {
    CountAppend(before, after, p);
    CountAppend(before + [x], after, p);
    CountPush(before, x, p);
  }

  lemma Cancel<T>(a: multiset<T>, b: multiset<T>, x: T)
    requires a + multiset{x} == b + multiset{x}
    ensures a == b
  {
    assert (a + multiset{x}) - multiset{x} == a && (b + multiset{x}) - multiset{x} == b;
  }

  /** A count does not depend on the order. */
  lemma {:induction false} CountIsOfMultiset<T>(s: seq<T>, t: seq<T>, p: T -> bool)
    requires multiset(s) == multiset(t)
    ensures Count(s, p) == Count(t, p)
  {
    if s == [] {
      assert |multiset(t)| == 0;
    } else {
      var front, last := s[..|s| - 1], s[|s| - 1];
      assert s == front + [last];
      assert multiset(s) == multiset(front) + multiset{last};
      assert last in multiset(t);
      var before, after := Occurrence(t, last);
      Cancel(multiset(front), multiset(before + after), last);
      CountMiddle(before, last, after, p);
      CountIsOfMultiset(front, before + after, p);
    }
  }

  lemma {:induction false} CountNone<T>(s: seq<T>, p: T -> bool)
    requires forall x <- s :: !p(x)
    ensures Count(s, p) == 0
  {
    if s != [] {
      CountNone(s[..|s| - 1], p);
    }
  }

  /** String order by character code. */
  predicate Leq(a: string, b: string) {
    a == [] || (b != [] && (a[0] < b[0] || (a[0] == b[0] && Leq(a[1..], b[1..]))))
  }

  /** The text before the first colon can be read back from a joined key. */
  lemma SplitAtColon(a: string, b: string, c: string, d: string)
    requires ':' !in a && ':' !in c && a + ":" + b == c + ":" + d
    ensures a == c && b == d
  {
    var s := a + ":" + b;
    assert s[|a|] == ':' && forall i :: 0 <= i < |a| ==> s[i] == a[i] && a[i] in a;
    assert s == c + ":" + d;
    assert s[|c|] == ':' && forall i :: 0 <= i < |c| ==> s[i] == c[i] && c[i] in c;
    assert |a| == |c|;
    assert s[..|a|] == a && s[..|c|] == c;
    assert s[|a| + 1..] == b && s[|c| + 1..] == d;
  }

  lemma MulMono(m: int, x: int, y: int)
    requires m >= 0 && x <= y
    ensures m * x <= m * y
  {
  }

  lemma MulCancel(m: int, x: int, y: int)
    requires m > 0 && m * x < m * y
    ensures x < y
  {
  }

  lemma DivMono(x: int, y: int, w: int)
    requires w > 0 && x <= y
    ensures x / w <= y / w
  {
    assert w * (y / w + 1) == w * (y / w) + w;
    MulCancel(w, x / w, y / w + 1);
  }

  lemma DivStep(x: int, y: int, w: int)
    requires w > 0 && y >= x + w
    ensures y / w >= x / w + 1
  {
  }

  lemma DivShift(x: int, w: int)
    requires w > 0
    ensures (x + w) / w == x / w + 1
  {
    DivStep(x, x + w, w);
    assert w * (x / w + 2) == w * (x / w) + 2 * w;
    MulCancel(w, (x + w) / w, x / w + 2);
  }

  lemma ModShift(x: int, w: int)
    requires w > 0
    ensures (x + w) % w == x % w
  {
    DivShift(x, w);
    assert w * (x / w + 1) == w * (x / w) + w;
  }
}
