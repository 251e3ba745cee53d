/** `strtok_r(s, " ", &rest)` on C strings, as pure functions.
    `NextToken` is one call: skip the leading spaces, take the run of non-spaces
    that follows, and leave the cursor just after the space that ended it.
    `Tokens` is the list that repeated calls return. The lemmas then show
    that this list is exactly the maximal runs of non-space characters:
    `Tokens(s) == words` if and only if `s` is `Join(gaps, words)` for some
    gaps of spaces that keep the words apart. */
module Tokenizer {

  /** The only delimiter the command parser passes to `strtok_r`. */
  const SP: char := ' '

  /** `s` has no occurrence of `ch`. */
  predicate Lacks(s: string, ch: char)
  {
    forall i :: 0 <= i < |s| ==> s[i] != ch
  }

  /** A token: non-empty and free of the delimiter. */
  predicate Word(t: string)
  {
    |t| > 0 && Lacks(t, SP)
  }

  /** `i + strspn(s + i, " ")`: the index of the first non-space at or after `i`. */
  function SkipSpaces(s: string, i: nat): (k: nat)
    requires i <= |s|
    ensures i <= k <= |s|
    ensures forall j :: i <= j < k ==> s[j] == SP
    ensures k == |s| || s[k] != SP
    decreases |s| - i
  {
    if i < |s| && s[i] == SP then SkipSpaces(s, i + 1) else i
  }

  /** `i + strcspn(s + i, " ")`: the index of the first space at or after `i`. */
  function WordEnd(s: string, i: nat): (e: nat)
    requires i <= |s|
    ensures i <= e <= |s|
    ensures forall j :: i <= j < e ==> s[j] != SP
    ensures e == |s| || s[e] == SP
    decreases |s| - i
  {
    if i < |s| && s[i] != SP then WordEnd(s, i + 1) else i
  }

  function Spaces(n: nat): (r: string)
    ensures |r| == n && forall i :: 0 <= i < n ==> r[i] == SP
  {
    seq(n, _ => SP)
  }

  /** The delimiter that `strtok_r` overwrote with NUL, if any. */
  function Cut(cut: bool): string
  {
    if cut then [SP] else []
  }

  /** The outcome of one `strtok_r` call. */
  datatype Scan =
    | End
    | Token(lead: nat, word: string, cut: bool, rest: string)

  /** One `strtok_r(s, " ", &rest)` call: `End` when only spaces are left
      (the call returns NULL); otherwise `lead` skipped spaces, the token, whether
      a space ended it (and was cut), and the string the cursor points at afterwards. */
  function NextToken(s: string): (r: Scan)
    ensures r.End? <==> forall i :: 0 <= i < |s| ==> s[i] == SP
    ensures r.Token? ==> Word(r.word) && (r.cut || r.rest == [])
  {
    var k := SkipSpaces(s, 0);
    if k == |s| then End
    else
      var e := WordEnd(s, k);
      Token(k, s[k..e], e < |s|, if e < |s| then s[e + 1..] else [])
  }

  /** A call consumes its input exactly: the skipped spaces, the token, the space
      it cut (if any) and the rest make up the string again. */
  lemma NextTokenSplit(s: string)
    ensures var r := NextToken(s);
      r.Token? ==> s == Spaces(r.lead) + r.word + Cut(r.cut) + r.rest
  {
    var k := SkipSpaces(s, 0);
    if k < |s| {
      var e := WordEnd(s, k);
      assert s == s[..k] + s[k..e] + s[e..];
      assert s[..k] == Spaces(k);
      assert e < |s| ==> s[e..] == [SP] + s[e + 1..];
    }
  }

  /** The tokens repeated `strtok_r` calls return, in order. */
  function Tokens(s: string): (ts: seq<string>)
    ensures ts == [] <==> forall i :: 0 <= i < |s| ==> s[i] == SP
    ensures forall t :: t in ts ==> Word(t)
    decreases |s|
  {
    match NextToken(s)
    case End => []
    case Token(_, w, _, r) => [w] + Tokens(r)
  }

  /** A scan that finds a word makes it the first token and leaves the others in its rest. */
  lemma TokensStep(s: string)
    ensures NextToken(s).Token? ==>
      Tokens(s) != [] && Tokens(s)[0] == NextToken(s).word && Tokens(s)[1..] == Tokens(NextToken(s).rest)
  {
    if NextToken(s).Token? {
      assert Tokens(s) == [NextToken(s).word] + Tokens(NextToken(s).rest);
    }
  }

  lemma SkipSpacesAt(s: string, k: nat)
    requires k <= |s| && (forall j :: 0 <= j < k ==> s[j] == SP)
    requires k == |s| || s[k] != SP
    ensures SkipSpaces(s, 0) == k
  {
  }

  lemma WordEndAt(s: string, i: nat, e: nat)
    requires i <= e <= |s| && (forall j :: i <= j < e ==> s[j] != SP)
    requires e == |s| || s[e] == SP
    ensures WordEnd(s, i) == e
  {
  }

  /** The scan that stops at the first non-space `k` and then at the first space `e` after it. */
  lemma NextTokenAt(s: string, k: nat, e: nat)
    requires k < e <= |s|
    requires forall j :: 0 <= j < k ==> s[j] == SP
    requires forall j :: k <= j < e ==> s[j] != SP
    requires e == |s| || s[e] == SP
    ensures NextToken(s) == Token(k, s[k..e], e < |s|, if e < |s| then s[e + 1..] else [])
  {
    SkipSpacesAt(s, k);
    WordEndAt(s, k, e);
  }

  /** A scan is determined by the string: leading spaces, then a word ended by a space or the end. */
  lemma NextTokenOf(lead: nat, w: string, x: string)
    requires Word(w) && (x == [] || x[0] == SP)
    ensures NextToken(Spaces(lead) + w + x) == Token(lead, w, x != [], if x == [] then [] else x[1..])
  {
    var s := Spaces(lead) + w + x;
    var e := lead + |w|;
    assert forall j :: 0 <= j < lead ==> s[j] == SP;
    assert s[lead] == w[0];
    SkipSpacesAt(s, lead);
    assert forall j :: lead <= j < e ==> s[j] == w[j - lead];
    assert e < |s| ==> s[e] == x[0];
    WordEndAt(s, lead, e);
    assert s[lead..e] == w;
    assert s[e..] == x;
  }

  // ---------------------------------------------------------------------
  // A reference description: words laid out between runs of spaces.

  /** `gaps[0]` spaces, `words[0]`, `gaps[1]` spaces, ..., `gaps[|words|]` spaces. */
  function Join(gaps: seq<nat>, words: seq<string>): string
    requires |gaps| == |words| + 1
    decreases |words|
  {
    if |words| == 0 then Spaces(gaps[0])
    else Spaces(gaps[0]) + words[0] + Join(gaps[1..], words[1..])
  }

  /** Words separated by at least one space each; spaces at either end are optional. */
  predicate Layout(gaps: seq<nat>, words: seq<string>)
  {
    && |gaps| == |words| + 1
    && (forall i :: 0 <= i < |words| ==> Word(words[i]))
    && (forall i :: 0 < i < |words| ==> gaps[i] > 0)
  }

  lemma SpacesAdd(m: nat, n: nat)
    ensures Spaces(m) + Spaces(n) == Spaces(m + n)
  {
  }

  lemma Assoc(a: string, b: string, c: string, d: string)
    ensures a + (b + c + d) == (a + b) + c + d
  {
  }

  lemma Assoc3(a: string, b: string, c: string)
    ensures a + (b + c) == a + b + c
  {
  }

  /** `Join` on a list built by prepending one word. */
  lemma JoinCons(g0: nat, gs: seq<nat>, w: string, ws: seq<string>)
    requires |gs| == |ws| + 1
    ensures Join([g0] + gs, [w] + ws) == Spaces(g0) + w + Join(gs, ws)
  {
    assert ([g0] + gs)[1..] == gs && ([w] + ws)[1..] == ws;
  }

  /** Extra spaces in front of a layout widen its first gap. */
  lemma JoinLead(m: nat, gaps: seq<nat>, words: seq<string>)
    requires |gaps| == |words| + 1
    ensures Spaces(m) + Join(gaps, words) == Join([m + gaps[0]] + gaps[1..], words)
  {
    var g := [m + gaps[0]] + gaps[1..];
    SpacesAdd(m, gaps[0]);
    if |words| != 0 {
      var j := Join(gaps[1..], words[1..]);
      assert g[1..] == gaps[1..];
      Assoc(Spaces(m), Spaces(gaps[0]), words[0], j);
    }
  }

  /** The layout of `words[1..]` that is left once the first word and
      the space after it are consumed. */
  function DropFirst(gaps: seq<nat>): seq<nat>
    requires |gaps| >= 2
  {
    [if gaps[1] > 0 then gaps[1] - 1 else 0] + gaps[2..]
  }

  lemma DropFirstLayout(gaps: seq<nat>, words: seq<string>)
    requires Layout(gaps, words) && words != []
    ensures Layout(DropFirst(gaps), words[1..])
  {
  }

  /** What follows the first word of a layout: nothing, or a space and the layout of the rest. */
  lemma JoinTail(gaps: seq<nat>, words: seq<string>)
    requires Layout(gaps, words) && words != []
    ensures var tail := Join(gaps[1..], words[1..]);
      && (tail == [] ==> Join(DropFirst(gaps), words[1..]) == [])
      && (tail != [] ==> tail[0] == SP && tail[1..] == Join(DropFirst(gaps), words[1..]))
  {
    var tail := Join(gaps[1..], words[1..]);
    var g' := DropFirst(gaps);
    if gaps[1] == 0 {
      assert |words| == 1;
      assert tail == [];
      assert Join(g', words[1..]) == Spaces(0);
    } else {
      JoinLead(1, g', words[1..]);
      assert [1 + g'[0]] + g'[1..] == gaps[1..];
    }
  }

  /** Tokenizing a layout gives back its words. */
  lemma {:induction false} TokensOfJoin(gaps: seq<nat>, words: seq<string>)
    requires Layout(gaps, words)
    ensures Tokens(Join(gaps, words)) == words
    decreases |words|
  {
    if words == [] {
      assert Join(gaps, words) == Spaces(gaps[0]);
    } else {
      DropFirstLayout(gaps, words);
      JoinTail(gaps, words);
      assert Join(gaps, words) == Spaces(gaps[0]) + words[0] + Join(gaps[1..], words[1..]);
      var tail := Join(gaps[1..], words[1..]);
      var r := Join(DropFirst(gaps), words[1..]);
      NextTokenOf(gaps[0], words[0], tail);
      assert NextToken(Join(gaps, words)) == Token(gaps[0], words[0], tail != [], r);
      TokensOfJoin(DropFirst(gaps), words[1..]);
      assert [words[0]] + words[1..] == words;
    }
  }

  /** The gaps that `Tokens` skips over: together with the tokens they rebuild `s`. */
  function Gaps(s: string): (g: seq<nat>)
    ensures |g| == |Tokens(s)| + 1
    decreases |s|
  {
    match NextToken(s)
    case End => [|s|]
    case Token(lead, _, cut, r) =>
      var gr := Gaps(r);
      if cut then [lead, gr[0] + 1] + gr[1..] else [lead] + gr
  }

  /** A word and a space in front of a layout make a layout with one more word. */
  lemma JoinPrepend(lead: nat, w: string, gr: seq<nat>, tr: seq<string>)
    requires Word(w) && Layout(gr, tr)
    ensures Layout([lead, gr[0] + 1] + gr[1..], [w] + tr)
    ensures Join([lead, gr[0] + 1] + gr[1..], [w] + tr) == Spaces(lead) + w + Cut(true) + Join(gr, tr)
  {
    var g := [lead, gr[0] + 1] + gr[1..];
    var r := Join(gr, tr);
    assert g == [lead] + ([1 + gr[0]] + gr[1..]);
    JoinCons(lead, [1 + gr[0]] + gr[1..], w, tr);
    JoinLead(1, gr, tr);
    assert Spaces(1) == Cut(true);
    Assoc3(Spaces(lead) + w, Cut(true), r);
    forall i | 0 < i < |tr| + 1 ensures g[i] > 0 {
      if i > 1 {
        assert g[i] == gr[i - 1];
      }
    }
  }

  /** Every string is the layout of its own tokens. */
  lemma {:induction false} JoinOfTokens(s: string)
    ensures Layout(Gaps(s), Tokens(s)) && Join(Gaps(s), Tokens(s)) == s
    decreases |s|
  {
    NextTokenSplit(s);
    match NextToken(s)
    case End =>
      assert Join(Gaps(s), Tokens(s)) == Spaces(|s|);
    case Token(lead, w, cut, r) =>
      var gr, tr := Gaps(r), Tokens(r);
      JoinOfTokens(r);
      assert Tokens(s) == [w] + tr;
      if !cut {
        assert tr == [] && gr == [0];
        JoinCons(lead, [0], w, []);
        assert Gaps(s) == [lead, 0];
        assert s == Spaces(lead) + w + Spaces(0);
      } else {
        assert Gaps(s) == [lead, gr[0] + 1] + gr[1..];
        JoinPrepend(lead, w, gr, tr);
      }
  }

  /** `Tokens` yields exactly the maximal runs of non-spaces: its result is
      `words` if and only if `s` is some layout of `words`. */
  lemma TokensCharacterization(s: string, words: seq<string>)
    ensures Tokens(s) == words <==> exists gaps :: Layout(gaps, words) && Join(gaps, words) == s
  {
    JoinOfTokens(s);
    if gaps :| Layout(gaps, words) && Join(gaps, words) == s {
      TokensOfJoin(gaps, words);
    }
  }

  /** A string without spaces is a single token, whatever other characters it holds. */
  lemma SingleWord(t: string)
    requires Word(t)
    ensures Tokens(t) == [t]
  {
    assert Join([0, 0], [t]) == t;
    TokensOfJoin([0, 0], [t]);
  }

  /** The gaps of two layouts placed `k` spaces apart: the last gap of the first,
      the `k` spaces and the first gap of the second become one. */
  function Merge(ga: seq<nat>, k: nat, gb: seq<nat>): seq<nat>
    requires |ga| > 0 && |gb| > 0
  {
    ga[..|ga| - 1] + [ga[|ga| - 1] + k + gb[0]] + gb[1..]
  }

  /** Two layouts with `k` spaces between them are one layout whose middle gap absorbs the spaces. */
  lemma {:induction false} JoinAppend(ga: seq<nat>, ta: seq<string>, k: nat, gb: seq<nat>, tb: seq<string>)
    requires |ga| == |ta| + 1 && |gb| == |tb| + 1
    ensures Join(ga, ta) + Spaces(k) + Join(gb, tb) == Join(Merge(ga, k, gb), ta + tb)
    decreases |ta|
  {
    var g := Merge(ga, k, gb);
    var jb := Join(gb, tb);
    if |ta| == 0 {
      assert Join(ga, ta) == Spaces(ga[0]);
      SpacesAdd(ga[0], k);
      JoinLead(ga[0] + k, gb, tb);
      assert g == [ga[0] + k + gb[0]] + gb[1..];
      assert ta + tb == tb;
    } else {
      var p := Spaces(ga[0]) + ta[0];
      var j1 := Join(ga[1..], ta[1..]);
      JoinAppend(ga[1..], ta[1..], k, gb, tb);
      var g1 := Merge(ga[1..], k, gb);
      assert ga[1..][|ta| - 1] == ga[|ta|];
      assert g == [ga[0]] + g1;
      assert ta + tb == [ta[0]] + (ta[1..] + tb);
      JoinCons(ga[0], g1, ta[0], ta[1..] + tb);
      assert Join(ga, ta) == p + j1;
      Assoc(p, j1, Spaces(k), jb);
    }
  }

  lemma LayoutAppend(ga: seq<nat>, ta: seq<string>, k: nat, gb: seq<nat>, tb: seq<string>)
    requires Layout(ga, ta) && Layout(gb, tb) && k > 0
    ensures Layout(Merge(ga, k, gb), ta + tb)
  {
    var g := Merge(ga, k, gb);
    forall i | 0 < i < |ta| + |tb| ensures g[i] > 0 {
      if i < |ta| {
        assert g[i] == ga[i];
      } else if i > |ta| {
        assert g[i] == gb[i - |ta|];
      }
    }
    forall i | 0 <= i < |ta| + |tb| ensures Word((ta + tb)[i]) {
      if i >= |ta| {
        assert (ta + tb)[i] == tb[i - |ta|];
      }
    }
  }

  /** A space between two strings separates their tokens:
      the tokens of the whole are those of the left part followed by those of the right. */
  lemma TokensConcat(a: string, b: string)
    ensures Tokens(a + [SP] + b) == Tokens(a) + Tokens(b)
  {
    var ga, ta, gb, tb := Gaps(a), Tokens(a), Gaps(b), Tokens(b);
    JoinOfTokens(a);
    JoinOfTokens(b);
    JoinAppend(ga, ta, 1, gb, tb);
    LayoutAppend(ga, ta, 1, gb, tb);
    assert Spaces(1) == [SP];
    TokensOfJoin(Merge(ga, 1, gb), ta + tb);
  }

  /** Words joined by single spaces, the canonical form of a token list. */
  function Unwords(ws: seq<string>): string
    decreases |ws|
  {
    if ws == [] then []
    else if |ws| == 1 then ws[0]
    else ws[0] + [SP] + Unwords(ws[1..])
  }

  /** A word followed by a space is the first token. */
  lemma TokensCons(w: string, u: string)
    requires Word(w)
    ensures Tokens(w + [SP] + u) == [w] + Tokens(u)
  {
    TokensConcat(w, u);
    SingleWord(w);
  }

  /** Unwords is the inverse of Tokens on lists of words. */
  lemma {:induction false} TokensOfUnwords(ws: seq<string>)
    requires forall w :: w in ws ==> Word(w)
    ensures Tokens(Unwords(ws)) == ws
    decreases |ws|
  {
    if |ws| == 1 {
      SingleWord(ws[0]);
    } else if |ws| > 1 {
      var u := Unwords(ws[1..]);
      assert Unwords(ws) == ws[0] + [SP] + u;
      assert forall w :: w in ws[1..] ==> w in ws;
      TokensOfUnwords(ws[1..]);
      TokensCons(ws[0], u);
      assert [ws[0]] + ws[1..] == ws;
    }
  }

  /** A character other than the delimiter appears in `Unwords(ws)` only if some word has it. */
  lemma {:induction false} UnwordsLacks(ws: seq<string>, ch: char)
    requires ch != SP && forall i :: 0 <= i < |ws| ==> Lacks(ws[i], ch)
    ensures Lacks(Unwords(ws), ch)
    decreases |ws|
  {
    if |ws| > 1 {
      UnwordsLacks(ws[1..], ch);
      var u := Unwords(ws[1..]);
      assert forall i :: 0 <= i < |ws[0] + [SP] + u| ==> (ws[0] + [SP] + u)[i] != ch by {
        forall i | 0 <= i < |ws[0] + [SP] + u| ensures (ws[0] + [SP] + u)[i] != ch {
          if i > |ws[0]| {
            assert (ws[0] + [SP] + u)[i] == u[i - |ws[0]| - 1];
          }
        }
      }
    }
  }

  /** Tokens are pieces of the string: a character the string lacks, no token has. */
  lemma {:induction false} TokensLack(s: string, ch: char)
    requires Lacks(s, ch)
    ensures forall t :: t in Tokens(s) ==> Lacks(t, ch)
    decreases |s|
  {
    NextTokenSplit(s);
    match NextToken(s)
    case End =>
    case Token(lead, w, cut, r) =>
      var p := Spaces(lead) + w + Cut(cut);
      assert s == p + r;
      assert forall j :: 0 <= j < |w| ==> w[j] == s[lead + j];
      assert forall j :: 0 <= j < |r| ==> r[j] == s[|p| + j];
      TokensLack(r, ch);
      assert Tokens(s) == [w] + Tokens(r);
  }
}
