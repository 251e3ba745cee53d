/** `strtok_r` with the delimiter set " ", over a character buffer. A call takes the
    cursor `rest` (the `save_ptr`), skips the spaces at it (`strspn`), finds the end of
    the token (`strcspn`), overwrites the one space that ends the token with a NUL and
    moves the cursor past it; at the terminator it returns NULL and leaves the cursor
    on the NUL. `StrtokOn` is that algorithm as a function of the buffer, the method
    `StrtokR` performs it in place, and `StrtokScans` shows that it returns the tokens
    `Tokenizer.NextToken` describes. */
module Strtok {
  import opened CStrings
  import opened Tokenizer

  /** `s + strspn(s, " ")` for the terminated string at `i`. */
  function SpanSpaces(a: seq<char>, i: nat): (k: nat)
    requires Terminated(a, i)
    ensures i <= k <= i + Strlen(a, i) && a[k] != SP
    ensures forall j :: i <= j < k ==> a[j] == SP
    ensures Terminated(a, k) && k + Strlen(a, k) == i + Strlen(a, i)
    decreases |a| - i
  {
    if a[i] == SP then SpanSpaces(a, i + 1) else i
  }

  /** `s + strcspn(s, " ")` for the terminated string at `i`. */
  function SpanWord(a: seq<char>, i: nat): (e: nat)
    requires Terminated(a, i)
    ensures i <= e <= i + Strlen(a, i) && (a[e] == SP || a[e] == NUL)
    ensures forall j :: i <= j < e ==> a[j] != SP && a[j] != NUL
    decreases |a| - i
  {
    if a[i] != SP && a[i] != NUL then SpanWord(a, i + 1) else i
  }

  /** What one call returns and leaves behind: whether a token was found, where it
      starts, the new cursor, and the buffer after the call. */
  datatype Call = Call(found: bool, token: nat, next: nat, buf: seq<char>)

  /** One `strtok_r(rest, " ", &rest)` call on the buffer `a`. */
  function StrtokOn(a: seq<char>, rest: nat): (r: Call)
    requires Terminated(a, rest)
  {
    if a[rest] == NUL then Call(false, 0, rest, a)
    else
      var s := SpanSpaces(a, rest);
      if a[s] == NUL then Call(false, 0, s, a)
      else
        var e := SpanWord(a, s);
        if a[e] == NUL then Call(true, s, e, a)
        else Call(true, s, e + 1, a[e := NUL])
  }

  /** The scan of the buffer, restated on the string at `rest`. */
  lemma ScanShift(a: seq<char>, rest: nat, s: nat, e: nat)
    requires Terminated(a, rest) && rest <= s < e <= rest + Strlen(a, rest)
    requires forall j :: rest <= j < s ==> a[j] == SP
    requires forall j :: s <= j < e ==> a[j] != SP
    requires e == rest + Strlen(a, rest) || a[e] == SP
    ensures var str := CStr(a, rest);
      && (forall j :: 0 <= j < s - rest ==> str[j] == SP)
      && (forall j :: s - rest <= j < e - rest ==> str[j] != SP)
      && (e - rest == |str| || str[e - rest] == SP)
  {
  }

  /** The token the scan finds is the buffer between `s` and `e`. */
  lemma ScanWord(a: seq<char>, rest: nat, s: nat, e: nat)
    requires Terminated(a, rest) && rest <= s < e <= rest + Strlen(a, rest)
    requires var str := CStr(a, rest);
      && (forall j :: 0 <= j < s - rest ==> str[j] == SP)
      && (forall j :: s - rest <= j < e - rest ==> str[j] != SP)
      && (e - rest == |str| || str[e - rest] == SP)
    ensures NextToken(CStr(a, rest)).Token? && NextToken(CStr(a, rest)).word == a[s..e]
  {
    NextTokenAt(CStr(a, rest), s - rest, e - rest);
    CStrSlice(a, rest, s, e);
  }

  /** What the scan leaves is the buffer after the space at `e`, if there is one. */
  lemma ScanRest(a: seq<char>, rest: nat, s: nat, e: nat)
    requires Terminated(a, rest) && rest <= s < e <= rest + Strlen(a, rest)
    requires var str := CStr(a, rest);
      && (forall j :: 0 <= j < s - rest ==> str[j] == SP)
      && (forall j :: s - rest <= j < e - rest ==> str[j] != SP)
      && (e - rest == |str| || str[e - rest] == SP)
    ensures NextToken(CStr(a, rest)).Token?
    ensures NextToken(CStr(a, rest)).cut == (e < rest + Strlen(a, rest))
    ensures NextToken(CStr(a, rest)).rest
         == if e < rest + Strlen(a, rest) then a[e + 1..rest + Strlen(a, rest)] else []
  {
    NextTokenAt(CStr(a, rest), s - rest, e - rest);
    if e < rest + Strlen(a, rest) {
      CStrSlice(a, rest, e + 1, e + 1);
    }
  }

  /** A scan of the buffer that skips spaces up to `s`, then non-spaces up to `e`,
      finds the token `NextToken` finds in the string at `rest`. */
  lemma ScanFinds(a: seq<char>, rest: nat, s: nat, e: nat)
    requires Terminated(a, rest) && rest <= s < e <= rest + Strlen(a, rest)
    requires forall j :: rest <= j < s ==> a[j] == SP
    requires forall j :: s <= j < e ==> a[j] != SP
    requires e == rest + Strlen(a, rest) || a[e] == SP
    ensures var t := rest + Strlen(a, rest); var scan := NextToken(CStr(a, rest));
      && scan.Token? && scan.word == a[s..e] && scan.cut == (e < t)
      && scan.rest == (if e < t then a[e + 1..t] else [])
  {
    ScanShift(a, rest, s, e);
    ScanWord(a, rest, s, e);
    ScanRest(a, rest, s, e);
  }

  /** No token: the string at `rest` is spaces up to its terminator at `s`. */
  lemma ScanEnd(a: seq<char>, rest: nat, s: nat)
    requires Terminated(a, rest) && rest <= s < |a| && a[s] == NUL
    requires forall j :: rest <= j < s ==> a[j] == SP
    ensures NextToken(CStr(a, rest)).End? && s == rest + Strlen(a, rest)
    ensures Terminated(a, s)
  {
    StrlenAt(a, rest, s);
    StrlenAt(a, s, s);
  }

  /** The last token runs up to the terminator at `e`, which stays where it is. */
  lemma LastToken(a: seq<char>, rest: nat, s: nat, e: nat)
    requires Terminated(a, rest) && rest <= s < e == rest + Strlen(a, rest)
    ensures Terminated(a, s) && CStr(a, s) == a[s..e]
    ensures Terminated(a, e) && CStr(a, e) == []
  {
    StrlenAt(a, s, e);
    StrlenAt(a, e, e);
  }

  /** Writing a NUL over the space at `e` ends the token there and starts the rest after it. */
  lemma CutToken(a: seq<char>, rest: nat, s: nat, e: nat)
    requires Terminated(a, rest) && rest <= s < e < rest + Strlen(a, rest)
    ensures var b := a[e := NUL];
      && Terminated(b, s) && CStr(b, s) == a[s..e]
      && Terminated(b, e + 1) && CStr(b, e + 1) == a[e + 1..rest + Strlen(a, rest)]
  {
    var t := rest + Strlen(a, rest);
    var b := a[e := NUL];
    StrlenAt(b, s, e);
    var u, v := b[s..e], a[s..e];
    assert forall k :: 0 <= k < |u| ==> u[k] == v[k];
    StrlenAt(b, e + 1, t);
    u, v := b[e + 1..t], a[e + 1..t];
    assert forall k :: 0 <= k < |u| ==> u[k] == v[k];
  }

  /** The call `r` returns the tokens `NextToken` describes: NULL exactly when only
      spaces remain, otherwise a pointer to the next word, NUL-terminated in place,
      with the cursor on what follows the word and its delimiter. Only the delimiter
      is overwritten. */
  predicate Describes(a: seq<char>, rest: nat, r: Call)
    requires Terminated(a, rest)
  {
    var scan := NextToken(CStr(a, rest));
    && |r.buf| == |a| && rest <= r.next && Terminated(r.buf, r.next)
    && (r.found <==> scan.Token?)
    && (scan.End? ==> r.buf == a && r.next == rest + Strlen(a, rest))
    && (scan.Token? ==>
          && rest <= r.token && r.token + |scan.word| <= r.next
          && Terminated(r.buf, r.token) && CStr(r.buf, r.token) == scan.word
          && CStr(r.buf, r.next) == scan.rest
          && r.buf == (if scan.cut then a[r.token + |scan.word| := NUL] else a))
  }

  lemma StrtokEnd(a: seq<char>, rest: nat)
    requires Terminated(a, rest) && a[SpanSpaces(a, rest)] == NUL
    ensures Describes(a, rest, StrtokOn(a, rest))
  {
    var s := SpanSpaces(a, rest);
    ScanEnd(a, rest, s);
    if a[rest] == NUL {
      assert s == rest;
    }
  }

  lemma StrtokLast(a: seq<char>, rest: nat)
    requires Terminated(a, rest) && a[SpanSpaces(a, rest)] != NUL
    requires a[SpanWord(a, SpanSpaces(a, rest))] == NUL
    ensures Describes(a, rest, StrtokOn(a, rest))
  {
    var s := SpanSpaces(a, rest);
    var e := SpanWord(a, s);
    ScanFinds(a, rest, s, e);
    LastToken(a, rest, s, e);
  }

  lemma CutDescribed(a: seq<char>, rest: nat, s: nat, e: nat)
    requires Terminated(a, rest) && rest <= s < e < rest + Strlen(a, rest) && a[e] == SP
    requires forall j :: rest <= j < s ==> a[j] == SP
    requires forall j :: s <= j < e ==> a[j] != SP
    ensures Describes(a, rest, Call(true, s, e + 1, a[e := NUL]))
  {
    ScanFinds(a, rest, s, e);
    CutToken(a, rest, s, e);
  }

  lemma StrtokCut(a: seq<char>, rest: nat)
    requires Terminated(a, rest) && a[SpanSpaces(a, rest)] != NUL
    requires a[SpanWord(a, SpanSpaces(a, rest))] != NUL
    ensures Describes(a, rest, StrtokOn(a, rest))
  {
    var s := SpanSpaces(a, rest);
    var e := SpanWord(a, s);
    assert StrtokOn(a, rest) == Call(true, s, e + 1, a[e := NUL]);
    CutDescribed(a, rest, s, e);
  }

  /** `strtok_r` returns the tokens `NextToken` describes. */
  lemma StrtokScans(a: seq<char>, rest: nat)
    requires Terminated(a, rest)
    ensures Describes(a, rest, StrtokOn(a, rest))
  {
    var s := SpanSpaces(a, rest);
    if a[s] == NUL {
      StrtokEnd(a, rest);
    } else {
      if a[SpanWord(a, s)] == NUL {
        StrtokLast(a, rest);
      } else {
        StrtokCut(a, rest);
      }
    }
  }

  /** In terms of the token list: a call finds a token exactly when the string at the
      cursor has one; it returns the first, and the cursor it leaves holds the others. */
  lemma StrtokTokens(a: seq<char>, rest: nat)
    requires Terminated(a, rest)
    ensures var r := StrtokOn(a, rest); var ts := Tokens(CStr(a, rest));
      && |r.buf| == |a| && Terminated(r.buf, r.next)
      && (r.found <==> ts != [])
      && (r.found ==>
            && Terminated(r.buf, r.token) && CStr(r.buf, r.token) == ts[0]
            && rest <= r.token && r.token + |ts[0]| <= r.next
            && (|ts| > 1 ==> r.token + |ts[0]| < r.next))
      && (r.found ==> Tokens(CStr(r.buf, r.next)) == ts[1..])
  {
    var str := CStr(a, rest);
    StrtokScans(a, rest);
    TokensStep(str);
    var r, scan := StrtokOn(a, rest), NextToken(str);
    if scan.Token? {
      assert CStr(r.buf, r.next) == scan.rest;
      if !scan.cut {
        assert Tokens(scan.rest) == [];
      }
    }
  }

  /** Two calls in a row, the second on the cursor the first left: both find a token
      exactly when the string has two, and those are the first two tokens, both
      still readable after the second call. */
  lemma StrtokTwice(a: seq<char>, rest: nat)
    requires Terminated(a, rest)
    ensures var r1 := StrtokOn(a, rest);
      Terminated(r1.buf, r1.next) &&
      var r2 := StrtokOn(r1.buf, r1.next); var ts := Tokens(CStr(a, rest));
      && (r1.found && r2.found <==> |ts| >= 2)
      && (r1.found && r2.found ==>
            && Terminated(r2.buf, r1.token) && CStr(r2.buf, r1.token) == ts[0]
            && Terminated(r2.buf, r2.token) && CStr(r2.buf, r2.token) == ts[1])
  {
    StrtokTokens(a, rest);
    var r1 := StrtokOn(a, rest);
    if r1.found {
      StrtokTokens(r1.buf, r1.next);
      StrtokWrites(r1.buf, r1.next);
      var r2 := StrtokOn(r1.buf, r1.next);
      if r2.found {
        var ts := Tokens(CStr(a, rest));
        assert r1.token + Strlen(r1.buf, r1.token) < r1.next by {
          assert |ts| > 1;
          assert Strlen(r1.buf, r1.token) == |ts[0]|;
        }
        Frame(r1.buf, r2.buf, r1.token);
      }
    }
  }

  /** `b` is `a` with some of the spaces in `[lo, hi)` overwritten by NULs, and
      nothing else changed: all that `strtok_r` ever writes into the buffer. */
  predicate Blanked(a: seq<char>, b: seq<char>, lo: nat, hi: nat)
  {
    |b| == |a| && forall j :: 0 <= j < |a| ==> b[j] == a[j] || (lo <= j < hi && a[j] == SP && b[j] == NUL)
  }

  /** Blanking spaces that were left in a smaller range is blanking in the larger one. */
  lemma BlankedTrans(a: seq<char>, b: seq<char>, c: seq<char>, lo: nat, hi: nat, lo2: nat, hi2: nat)
    requires Blanked(a, b, lo, hi) && Blanked(b, c, lo2, hi2) && lo <= lo2 && hi2 <= hi
    ensures Blanked(a, c, lo, hi)
  {
    forall j | 0 <= j < |a| ensures c[j] == a[j] || (lo <= j < hi && a[j] == SP && c[j] == NUL) {
      if c[j] != b[j] {
        assert b[j] == SP;
      }
    }
  }

  /** Blanking keeps the terminator of a string and can only shorten the string:
      what C reads at `i` afterwards is a prefix of what it read before. */
  lemma BlankedPrefix(a: seq<char>, b: seq<char>, lo: nat, hi: nat, i: nat)
    requires Blanked(a, b, lo, hi) && Terminated(a, i)
    ensures Terminated(b, i) && CStr(b, i) <= CStr(a, i)
  {
    var e := i + Strlen(a, i);
    assert b[e] == NUL;
    TerminatedBy(b, i, e);
    var n := Strlen(b, i);
    CStrSlice(a, i, i, i + n);
    var u, v := b[i..i + n], a[i..i + n];
    assert forall k :: 0 <= k < |u| ==> u[k] == v[k];
    assert CStr(b, i) == u && CStr(a, i)[..n] == v;
  }

  /** A call writes nothing but a NUL over a space of the string at the cursor, and the
      string the new cursor points at ends where the old one did, or before. */
  lemma StrtokWrites(a: seq<char>, rest: nat)
    requires Terminated(a, rest)
    ensures var r := StrtokOn(a, rest); var end := rest + Strlen(a, rest);
      && Blanked(a, r.buf, rest, end)
      && Terminated(r.buf, r.next) && rest <= r.next && r.next + Strlen(r.buf, r.next) <= end
  {
    var end := rest + Strlen(a, rest);
    if a[rest] != NUL {
      var s := SpanSpaces(a, rest);
      if a[s] != NUL {
        var e := SpanWord(a, s);
        if a[e] != NUL {
          var b := a[e := NUL];
          assert e < end;
          StrlenAt(b, e + 1, end);
        }
      }
    }
  }

  /** `strspn(buf + i, " ")`, as an index. */
  method SkipDelimiters(buf: array<char>, i: nat) returns (s: nat)
    requires Terminated(buf[..], i)
    ensures s == SpanSpaces(buf[..], i)
  {
    s := i;
    while buf[s] == SP
      invariant i <= s <= i + Strlen(buf[..], i)
      invariant SpanSpaces(buf[..], s) == SpanSpaces(buf[..], i)
      decreases |buf[..]| - s
    {
      s := s + 1;
    }
  }

  /** `strcspn(buf + s, " ")`, as an index. */
  method FindDelimiter(buf: array<char>, s: nat) returns (e: nat)
    requires Terminated(buf[..], s)
    ensures e == SpanWord(buf[..], s)
  {
    e := s;
    while buf[e] != SP && buf[e] != NUL
      invariant s <= e <= s + Strlen(buf[..], s)
      invariant SpanWord(buf[..], e) == SpanWord(buf[..], s)
      decreases |buf[..]| - e
    {
      e := e + 1;
    }
  }

  /** `strtok_r(rest, " ", &rest)` on the buffer, in place. */
  method StrtokR(buf: array<char>, rest: nat) returns (found: bool, token: nat, next: nat)
    requires Terminated(buf[..], rest)
    modifies buf
    ensures Call(found, token, next, buf[..]) == StrtokOn(old(buf[..]), rest)
  {
    if buf[rest] == NUL {
      return false, 0, rest;
    }
    var s := SkipDelimiters(buf, rest);
    if buf[s] == NUL {
      return false, 0, s;
    }
    var e := FindDelimiter(buf, s);
    if buf[e] == NUL {
      return true, s, e;
    }
    buf[e] := NUL;
    return true, s, e + 1;
  }
}
