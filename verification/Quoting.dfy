/**
 * Reading single-quoted scalars, YAML 1.2 section 7.3.2: inside the quotes a quote is written twice, a
 * line break between two lines is a space, and n blank lines between them are n line breaks.
 */
module Quoting {
  const QUOTE: char := '\''

  /** How a text is written inside single quotes. */
  function Doubled(t: string): string {
    if t == "" then "" else (if t[0] == QUOTE then [QUOTE, QUOTE] else [t[0]]) + Doubled(t[1..])
  }

  /** `replace("''", "'")`: from the left, without overlaps. */
  function Undoubled(s: string): string {
    if s == "" then ""
    else if |s| >= 2 && s[0] == QUOTE && s[1] == QUOTE then [QUOTE] + Undoubled(s[2..])
    else [s[0]] + Undoubled(s[1..])
  }

  lemma UndoubledFirst(c: char, rest: string)
    ensures Undoubled([QUOTE, QUOTE] + rest) == [QUOTE] + Undoubled(rest)
    ensures c != QUOTE ==> Undoubled([c] + rest) == [c] + Undoubled(rest)
  {
    assert ([QUOTE, QUOTE] + rest)[2..] == rest && ([c] + rest)[1..] == rest;
  }

  lemma DoubledFirst(t: string)
    requires t != ""
    ensures Doubled(t) == (if t[0] == QUOTE then [QUOTE, QUOTE] else [t[0]]) + Doubled(t[1..])
  {
  }

  lemma Assoc(a: string, b: string, c: string)
    ensures a + b + c == a + (b + c)
  {
  }

  lemma {:induction false} UndoubledPrefix(t: string, rest: string)
    ensures Undoubled(Doubled(t) + rest) == t + Undoubled(rest)
  {
    if t == "" {
      assert Doubled(t) + rest == rest;
    } else {
      DoubledFirst(t);
      hide Doubled, Undoubled;
      UndoubledPrefix(t[1..], rest);
      UndoubledFirst(t[0], Doubled(t[1..]) + rest);
      Assoc(if t[0] == QUOTE then [QUOTE, QUOTE] else [t[0]], Doubled(t[1..]), rest);
      Assoc([t[0]], t[1..], Undoubled(rest));
      assert [t[0]] + t[1..] == t;
    }
  }

  lemma QuotingRoundTrip(t: string)
    ensures Undoubled(Doubled(t)) == t
  {
    UndoubledPrefix(t, "");
    assert Doubled(t) + "" == Doubled(t);
  }

  lemma {:induction false} DoubledJoin(a: string, b: string)
    ensures Doubled(a + b) == Doubled(a) + Doubled(b)
  {
    if a == "" {
      assert a + b == b;
    } else {
      assert (a + b)[1..] == a[1..] + b;
      DoubledJoin(a[1..], b);
    }
  }

  // ---- The closing quote ---------------------------------------------------------------

  /** `s` starts with the quoted form of `t` and the quote that closes it. */
  predicate Closes(s: string, t: string) {
    var n := |Doubled(t)|;
    && n < |s| && s[..n] == Doubled(t) && s[n] == QUOTE
    && (n + 1 < |s| ==> s[n + 1] != QUOTE)
  }

  function Shift(k: int, n: nat): int { if k < 0 then -1 else k + n }

  function CloseIndex(s: string): int
    ensures -1 <= CloseIndex(s) < |s|
  {
    if s == "" then -1
    else if s[0] != QUOTE then Shift(CloseIndex(s[1..]), 1)
    else if |s| >= 2 && s[1] == QUOTE then Shift(CloseIndex(s[2..]), 2)
    else 0
  }

  method FindClose(s: string) returns (r: int)
    ensures r == CloseIndex(s)
  {
    var i := 0;
    while i < |s|
      invariant 0 <= i <= |s| && CloseIndex(s) == Shift(CloseIndex(s[i..]), i)
    {
      assert s[i..][1..] == s[i + 1..];
      if s[i] == QUOTE {
        if i + 1 < |s| && s[i + 1] == QUOTE {
          assert s[i..][2..] == s[i + 2..];
          i := i + 2;
        } else {
          return i;
        }
      } else {
        i := i + 1;
      }
    }
    return -1;
  }

  lemma {:induction false} ClosedTextIsFound(s: string, t: string)
    requires Closes(s, t)
    ensures CloseIndex(s) == |Doubled(t)|
  {
    if t != "" {
      var n := if t[0] == QUOTE then 2 else 1;
      var d := Doubled(t);
      assert d == s[..|d|] && d[n..] == Doubled(t[1..]) && d[0] == t[0] && (n == 2 ==> d[1] == QUOTE);
      assert s[n..][..|d| - n] == d[n..];
      ClosedTextIsFound(s[n..], t[1..]);
    }
  }

  lemma SliceOfSlice(s: string, n: nat, k: nat)
    requires n <= k <= |s|
    ensures s[..k][n..] == s[n..][..k - n] && s[..k] == s[..n] + s[n..][..k - n]
  {
  }

  lemma {:induction false} FoundTextIsClosed(s: string)
    requires CloseIndex(s) >= 0
    ensures Closes(s, Undoubled(s[..CloseIndex(s)]))
  {
    var k := CloseIndex(s);
    if s[0] != QUOTE || (|s| >= 2 && s[1] == QUOTE) {
      var n := if s[0] == QUOTE then 2 else 1;
      FoundTextIsClosed(s[n..]);
      var t := Undoubled(s[n..][..k - n]);
      SliceOfSlice(s, n, k);
      assert Undoubled(s[..k]) == [s[0]] + t;
      assert ([s[0]] + t)[1..] == t;
    }
  }

  /** The search finds an index exactly when some quoted text closes there, and that text is unique. */
  lemma CloseIndexExactly(s: string)
    ensures CloseIndex(s) >= 0 <==> exists t :: Closes(s, t)
    ensures forall t :: Closes(s, t) <==> CloseIndex(s) >= 0 && t == Undoubled(s[..CloseIndex(s)])
  {
    if CloseIndex(s) >= 0 { FoundTextIsClosed(s); }
    forall t | Closes(s, t) ensures CloseIndex(s) >= 0 && t == Undoubled(s[..CloseIndex(s)]) {
      ClosedTextIsFound(s, t);
      QuotingRoundTrip(t);
    }
  }

  // ---- Folding -------------------------------------------------------------------------

  // What stands between two lines with `blanks` blank lines in between.
  function Separator(blanks: nat): string {
    if blanks == 0 then " " else seq(blanks, _ => '\n')
  }

  function TrailingBlanks(parts: seq<string>): nat {
    if parts == [] || parts[|parts| - 1] != "" then 0 else TrailingBlanks(parts[..|parts| - 1]) + 1
  }

  function Joined(parts: seq<string>): string {
    if parts == [] then "" else
      var n := |parts| - 1;
      var before := Joined(parts[..n]);
      if parts[n] == "" then before
      else if before == "" then parts[n]
      else before + Separator(TrailingBlanks(parts[..n])) + parts[n]
  }

  method Fold(parts: seq<string>) returns (r: string)
    ensures r == Undoubled(Joined(parts))
  {
    var joined, pending := "", 0;
    for i := 0 to |parts|
      invariant joined == Joined(parts[..i])
      invariant pending == TrailingBlanks(parts[..i])
    {
      var part := parts[i];
      assert parts[..i + 1][..i] == parts[..i];
      if part == "" {
        pending := pending + 1;
      } else {
        if joined != "" {
          joined := joined + Separator(pending);
        }
        joined := joined + part;
        pending := 0;
      }
    }
    assert parts[..|parts|] == parts;
    r := Undoubled(joined);
  }

  // The lines of a text: its non-empty pieces, quoted, piece i preceded by gaps[i] blank lines.
  function Lines(words: seq<string>, gaps: seq<nat>): seq<string>
    requires |words| == |gaps|
  {
    if words == [] then [] else
      var n := |words| - 1;
      Lines(words[..n], gaps[..n]) + seq(gaps[n], _ => "") + [Doubled(words[n])]
  }

  function Text(words: seq<string>, gaps: seq<nat>): string
    requires |words| == |gaps|
  {
    if words == [] then "" else
      var n := |words| - 1;
      (if n == 0 then "" else Text(words[..n], gaps[..n]) + Separator(gaps[n])) + words[n]
  }

  lemma {:induction false} BlanksJoin(parts: seq<string>, blanks: nat)
    requires parts == [] || parts[|parts| - 1] != ""
    ensures Joined(parts + seq(blanks, _ => "")) == Joined(parts)
    ensures TrailingBlanks(parts + seq(blanks, _ => "")) == blanks
  {
    var all := parts + seq(blanks, _ => "");
    if blanks == 0 {
      assert all == parts;
    } else {
      assert all[..|all| - 1] == parts + seq(blanks - 1, _ => "");
      BlanksJoin(parts, blanks - 1);
    }
  }

  lemma {:induction false} SeparatorIsPlain(blanks: nat)
    ensures Doubled(Separator(blanks)) == Separator(blanks)
  {
    if blanks == 0 {
      assert Doubled(" ") == [' '] + Doubled("");
    } else {
      PlainIsPlain(Separator(blanks));
    }
  }

  lemma {:induction false} PlainIsPlain(s: string)
    requires forall i :: 0 <= i < |s| ==> s[i] != QUOTE
    ensures Doubled(s) == s
  {
    if s != "" { PlainIsPlain(s[1..]); }
  }

  lemma {:induction false} JoinedLines(words: seq<string>, gaps: seq<nat>)
    requires |words| == |gaps| && forall i :: 0 <= i < |words| ==> words[i] != ""
    ensures Joined(Lines(words, gaps)) == Doubled(Text(words, gaps))
    ensures words != [] ==> Text(words, gaps) != "" && Lines(words, gaps) != [] && Lines(words, gaps)[|Lines(words, gaps)| - 1] != ""
  {
    if words != [] {
      var n := |words| - 1;
      var ls, gap, w := Lines(words[..n], gaps[..n]), gaps[n], words[n];
      JoinedLines(words[..n], gaps[..n]);
      BlanksJoin(ls, gap);
      var parts := Lines(words, gaps);
      assert parts[..|parts| - 1] == ls + seq(gap, _ => "");
      assert parts[|parts| - 1] == Doubled(w) != "";
      var before := Text(words[..n], gaps[..n]);
      assert Joined(parts[..|parts| - 1]) == Doubled(before);
      if n > 0 {
        assert Doubled(before) != "";
        assert TrailingBlanks(parts[..|parts| - 1]) == gap;
        assert Text(words, gaps) == before + Separator(gap) + w;
        SeparatorIsPlain(gap);
        DoubledJoin(before, Separator(gap));
        DoubledJoin(before + Separator(gap), w);
        assert Joined(parts) == Doubled(before) + Separator(gap) + Doubled(w);
      } else {
        assert Text(words, gaps) == w;
        assert Joined(parts) == Doubled(w);
      }
    }
  }

  /** Two quoted lines with `blanks` blank lines between them: a space, or that many line breaks. */
  lemma FoldOfTwo(a: string, b: string, blanks: nat)
    requires a != "" && b != ""
    ensures Undoubled(Joined([Doubled(a)] + seq(blanks, _ => "") + [Doubled(b)]))
            == a + (if blanks == 0 then " " else seq(blanks, _ => '\n')) + b
  {
    var words, gaps := [a, b], [0, blanks];
    FoldRoundTrip(words, gaps);
    assert words[..1] == [a] && gaps[..1] == [0] && [a][..0] == [] && [0][..0] == [];
    assert Lines([a], [0]) == [Doubled(a)];
    assert Lines(words, gaps) == [Doubled(a)] + seq(blanks, _ => "") + [Doubled(b)];
    assert Text([a], [0]) == a;
  }

  /** Folding the quoted lines of a text gives the text back, blank lines and quotes included. */
  lemma FoldRoundTrip(words: seq<string>, gaps: seq<nat>)
    requires |words| == |gaps| && forall i :: 0 <= i < |words| ==> words[i] != ""
    ensures Undoubled(Joined(Lines(words, gaps))) == Text(words, gaps)
  {
    JoinedLines(words, gaps);
    QuotingRoundTrip(Text(words, gaps));
  }
}
