/** Bytes, options, and facts about sequences and products that several models share. */
module Common {
  newtype byte = x: int | 0 <= x < 0x100

  datatype Option<T> = None | Some(value: T)

  function Silence(silence: byte, n: nat): (r: seq<byte>)
    ensures |r| == n && forall i :: 0 <= i < n ==> r[i] == silence
  {
    seq(n, _ => silence)
  }

  /** The data with some of it overwritten from position at on. */
  function Patch<T>(data: seq<T>, at: nat, bytes: seq<T>): (r: seq<T>)
    requires at + |bytes| <= |data|
    ensures |r| == |data|
  {
    data[..at] + bytes + data[at + |bytes|..]
  }

  lemma PatchAt<T>(data: seq<T>, at: nat, bytes: seq<T>, i: nat)
    requires at + |bytes| <= |data| && i < |data|
    ensures Patch(data, at, bytes)[i] == if at <= i < at + |bytes| then bytes[i - at] else data[i]
  {
  }

  lemma PatchTwice<T>(s: seq<T>, q: nat, a: seq<T>, b: seq<T>)
    requires q + |a| + |b| <= |s|
    ensures Patch(Patch(s, q, a), q + |a|, b) == Patch(s, q, a + b)
  {
  }

  lemma AtLeast(k: int, m: nat)
    requires 1 <= k
    ensures m <= k * m
  {
  }

  lemma DivMul(k: nat, m: nat)
    requires 0 < m
    ensures (k * m) / m == k
  {
    var q, r := (k * m) / m, (k * m) % m;
    assert (k - q) * m == r;
    if 1 <= k - q { AtLeast(k - q, m); }
    if 1 <= q - k { AtLeast(q - k, m); }
  }

  /** The numbers from one on, n of them. */
  function Range(low: nat, n: nat): set<nat> {
    if n == 0 then {} else Range(low, n - 1) + {low + n - 1}
  }

  lemma {:induction false} RangeSize(low: nat, n: nat)
    ensures |Range(low, n)| == n && forall x: nat :: x in Range(low, n) <==> low <= x < low + n
  {
    if n != 0 { RangeSize(low, n - 1); }
  }

  lemma TwoParts<T>(a: set<T>, b: set<T>, all: set<T>)
    requires a !! b && forall x :: x in all <==> x in a || x in b
    ensures |a| + |b| == |all|
  {
    assert all == a + b;
  }

  ghost predicate Distinct<T>(s: seq<T>) { forall i, j :: 0 <= i < j < |s| ==> s[i] != s[j] }

  lemma DistinctMore<T>(s: seq<T>, e: T)
    requires Distinct(s) && e !in s
    ensures Distinct(s + [e])
  {
  }

  lemma DistinctRest<T>(s: seq<T>)
    requires Distinct(s) && s != []
    ensures Distinct(s[1..]) && s[0] !in s[1..]
    ensures forall e :: e in s <==> e == s[0] || e in s[1..]
  {
  }

  function Remove<T(==)>(s: seq<T>, e: T): seq<T> {
    if s == [] then []
    else if s[0] == e then s[1..]
    else [s[0]] + Remove(s[1..], e)
  }

  lemma {:induction false} RemoveElements<T>(s: seq<T>, e: T)
    requires Distinct(s) && e in s
    ensures |Remove(s, e)| == |s| - 1 && Distinct(Remove(s, e))
    ensures forall x :: x in Remove(s, e) <==> x in s && x != e
  {
    if s[0] != e {
      assert e in s[1..];
      RemoveElements(s[1..], e);
      var r := Remove(s[1..], e);
      assert s[0] !in s[1..] && s[0] !in r;
    } else {
      assert forall x :: x in s <==> x == e || x in s[1..];
    }
  }

  /** What goes is the first of its kind, and the rest stay in order. */
  lemma {:induction false} RemoveFirst<T>(s: seq<T>, e: T, i: nat)
    requires i < |s| && s[i] == e && e !in s[..i]
    ensures Remove(s, e) == s[..i] + s[i + 1..]
  {
    if i != 0 {
      assert s[0] in s[..i] && s[..i] == [s[0]] + s[1..][..i - 1];
      RemoveFirst(s[1..], e, i - 1);
    }
  }

  lemma {:induction false} RemoveSize<T>(s: seq<T>, e: T)
    requires e in s
    ensures |Remove(s, e)| == |s| - 1
  {
    if s[0] != e { RemoveSize(s[1..], e); }
  }

  /** A sequence holds the elements of a set, each once. */
  ghost predicate Enumerates<T>(s: seq<T>, t: set<T>) {
    Distinct(s) && (forall i :: 0 <= i < |s| ==> s[i] in t) && forall x :: x in t ==> x in s
  }

  lemma EnumeratesConcat<T>(a: seq<T>, b: seq<T>, s: set<T>, t: set<T>)
    requires Enumerates(a, s) && Enumerates(b, t) && s !! t
    ensures Enumerates(a + b, s + t)
  {
  }

  lemma {:induction false} EnumeratesSize<T>(s: seq<T>, t: set<T>)
    requires Enumerates(s, t)
    ensures |s| == |t|
  {
    if s == [] {
      assert t == {};
    } else {
      forall x | x in t - {s[0]} ensures x in s[1..] { assert x in s; }
      EnumeratesSize(s[1..], t - {s[0]});
    }
  }
}
