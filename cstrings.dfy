/** The NUL-terminated view of a character buffer, as C's string functions see it.
    A buffer is a `seq<char>` (the contents of a `char[]`); the C string that
    starts at index `i` runs up to, and not including, the first NUL at or after `i`. */
module CStrings {

  const NUL: char := '\0'

  /** `strlen(buf + i)`: the distance from `i` to the first NUL, or to the end
      of the buffer when there is none. */
  function Strlen(a: seq<char>, i: nat): (n: nat)
    requires i <= |a|
    ensures i + n <= |a|
    ensures forall j :: i <= j < i + n ==> a[j] != NUL
    ensures i + n < |a| ==> a[i + n] == NUL
    decreases |a| - i
  {
    if i == |a| || a[i] == NUL then 0 else 1 + Strlen(a, i + 1)
  }

  /** The C string starting at index `i`. */
  function CStr(a: seq<char>, i: nat): (s: seq<char>)
    requires i <= |a|
    ensures forall j :: 0 <= j < |s| ==> s[j] != NUL
  {
    a[i..i + Strlen(a, i)]
  }

  /** The C string at `i` ends inside the buffer, on a NUL that C can read. */
  predicate Terminated(a: seq<char>, i: nat)
  {
    i <= |a| && i + Strlen(a, i) < |a|
  }

  /** A NUL at `e`, with none between `i` and `e`, is where the string at `i` ends. */
  lemma StrlenAt(a: seq<char>, i: nat, e: nat)
    requires i <= e < |a| && a[e] == NUL
    requires forall j :: i <= j < e ==> a[j] != NUL
    ensures Strlen(a, i) == e - i
    ensures CStr(a, i) == a[i..e] && Terminated(a, i)
  {
  }

  /** A string is unaffected by writes outside it and its terminator. */
  lemma Frame(a: seq<char>, b: seq<char>, i: nat)
    requires Terminated(a, i) && |a| == |b|
    requires forall j :: i <= j <= i + Strlen(a, i) ==> a[j] == b[j]
    ensures Terminated(b, i) && CStr(b, i) == CStr(a, i)
  {
    var e := i + Strlen(a, i);
    StrlenAt(b, i, e);
  }

  /** A NUL at `p` terminates every string that starts at or before it. */
  lemma TerminatedBy(a: seq<char>, i: nat, p: nat)
    requires i <= p < |a| && a[p] == NUL
    ensures Terminated(a, i) && i + Strlen(a, i) <= p
  {
  }

  /** A slice of a slice is a slice of the original, shifted. */
  lemma SliceOfSlice(a: seq<char>, i: nat, t: nat, x: nat, y: nat)
    requires i <= x <= y <= t <= |a|
    ensures a[i..t][x - i..y - i] == a[x..y]
  {
    var u, v := a[i..t][x - i..y - i], a[x..y];
    assert |u| == |v|;
    forall k | 0 <= k < |u| ensures u[k] == v[k] {
      assert u[k] == a[i..t][x - i + k];
    }
  }

  /** Pieces of the string at `i` are pieces of the buffer, shifted by `i`. */
  lemma CStrSlice(a: seq<char>, i: nat, x: nat, y: nat)
    requires Terminated(a, i) && i <= x <= y <= i + Strlen(a, i)
    ensures CStr(a, i)[x - i..y - i] == a[x..y]
    ensures CStr(a, i)[x - i..] == a[x..i + Strlen(a, i)]
  {
    var t := i + Strlen(a, i);
    SliceOfSlice(a, i, t, x, y);
    SliceOfSlice(a, i, t, x, t);
    var str := a[i..t];
    assert str[x - i..] == str[x - i..t - i];
  }

  /** `strcmp(buf + start, lit) == 0`. */
  method StrEquals(buf: array<char>, start: nat, lit: string) returns (eq: bool)
    requires Terminated(buf[..], start)
    ensures eq <==> CStr(buf[..], start) == lit
  {
    ghost var n := Strlen(buf[..], start);
    var k := 0;
    while k < |lit| && buf[start + k] != NUL && buf[start + k] == lit[k]
      invariant 0 <= k <= |lit| && k <= n
      invariant forall j :: 0 <= j < k ==> buf[start + j] == lit[j]
    {
      k := k + 1;
    }
    eq := k == |lit| && buf[start + k] == NUL;
    if eq {
      StrlenAt(buf[..], start, start + k);
      assert CStr(buf[..], start) == lit;
    } else if k < |lit| && k < n {
      assert CStr(buf[..], start)[k] != lit[k];
    }
  }

  /** The C string at `start`, copied out of the buffer. */
  method ReadToken(buf: array<char>, start: nat) returns (t: string)
    requires Terminated(buf[..], start)
    ensures t == CStr(buf[..], start)
  {
    ghost var n := Strlen(buf[..], start);
    var i := start;
    t := [];
    while buf[i] != NUL
      invariant start <= i <= start + n
      invariant t == buf[start..i]
      decreases start + n - i
    {
      t := t + [buf[i]];
      i := i + 1;
    }
  }
}
