/**
 Character classes and the Foundation string operations the app relies on:
 `trimmingCharacters(in:)`, `components(separatedBy: .newlines)` and
 `joined(separator:)`, stated over `seq<char>`.
 */
module Text {

  /** A member of Foundation's `.newlines` set: LF, VT, FF, CR, NEL, LS and PS. */
  predicate IsNewline(c: char) {
    c == '\n' || c == '\U{000B}' || c == '\U{000C}' || c == '\r'
    || c == '\U{0085}' || c == '\U{2028}' || c == '\U{2029}'
  }

  /** A member of Foundation's `.whitespaces` set: TAB and the space separators (Zs). */
  predicate IsWhitespace(c: char) {
    c == '\t' || c == ' ' || c == '\U{00A0}' || c == '\U{1680}'
    || ('\U{2000}' <= c <= '\U{200A}')
    || c == '\U{202F}' || c == '\U{205F}' || c == '\U{3000}'
  }

  /** The two Foundation character sets the app trims with. */
  datatype CharClass = Whitespaces | WhitespacesAndNewlines

  predicate InClass(c: char, k: CharClass) {
    match k
    case Whitespaces => IsWhitespace(c)
    case WhitespacesAndNewlines => IsWhitespace(c) || IsNewline(c)
  }

  /** Every character of `s` belongs to `k` (vacuously true of ""). */
  predicate AllIn(s: string, k: CharClass) {
    forall i :: 0 <= i < |s| ==> InClass(s[i], k)
  }

  /** Neither end of `s` is a character of `k`. */
  predicate IsTrimmed(s: string, k: CharClass) {
    s == [] || (!InClass(s[0], k) && !InClass(s[|s| - 1], k))
  }

  predicate NoNewline(s: string) {
    forall i :: 0 <= i < |s| ==> !IsNewline(s[i])
  }

  /** How many characters of `k` open `s`. */
  function LeadingCount(s: string, k: CharClass): (n: nat)
    ensures n <= |s|
    ensures forall i :: 0 <= i < n ==> InClass(s[i], k)
    ensures n < |s| ==> !InClass(s[n], k)
  {
    if |s| == 0 || !InClass(s[0], k) then 0 else 1 + LeadingCount(s[1..], k)
  }

  /** How many characters of `k` close `s`. */
  function TrailingCount(s: string, k: CharClass): (n: nat)
    ensures n <= |s|
    ensures forall i :: |s| - n <= i < |s| ==> InClass(s[i], k)
    ensures n < |s| ==> !InClass(s[|s| - 1 - n], k)
  {
    if |s| == 0 || !InClass(s[|s| - 1], k) then 0 else 1 + TrailingCount(s[..|s| - 1], k)
  }

  /** `r` occurs in `s` starting at index `a`. */
  predicate InfixAt(r: string, s: string, a: nat) {
    a + |r| <= |s| && s[a..a + |r|] == r
  }

  /**
   `s.trimmingCharacters(in: k)`: the infix of `s` left once both ends lose
   their characters of `k`.
   */
  function Trim(s: string, k: CharClass): (r: string)
    ensures IsTrimmed(r, k)
    ensures exists a: nat :: InfixAt(r, s, a) && AllIn(s[..a], k) && AllIn(s[a + |r|..], k)
    ensures r == [] <==> AllIn(s, k)
    ensures IsTrimmed(s, k) ==> r == s
  {
    var lead := LeadingCount(s, k);
    if lead == |s| then
      assert s != [] ==> InClass(s[0], k);
      assert InfixAt([], s, 0) && s[0..] == s;
      []
    else
      var trail := TrailingCount(s, k);
      assert InfixAt(s[lead..|s| - trail], s, lead);
      s[lead..|s| - trail]
  }

  lemma PrefixAllIn(s: string, k: CharClass, m: nat)
    requires m <= |s| && AllIn(s[..m], k)
    ensures forall j :: 0 <= j < m ==> InClass(s[j], k)
  {
    forall j | 0 <= j < m
      ensures InClass(s[j], k)
    {
      assert s[..m][j] == s[j];
    }
  }

  lemma SuffixAllIn(s: string, k: CharClass, m: nat)
    requires m <= |s| && AllIn(s[m..], k)
    ensures forall j :: m <= j < |s| ==> InClass(s[j], k)
  {
    forall j | m <= j < |s|
      ensures InClass(s[j], k)
    {
      assert s[m..][j - m] == s[j];
    }
  }

  /** Two non-empty trimmed infixes, each with only `k` around it, coincide. */
  lemma TrimmedInfixUnique(s: string, k: CharClass, t: string, a: nat, r: string, b: nat)
    requires t != [] && InfixAt(t, s, a) && IsTrimmed(t, k)
    requires AllIn(s[..a], k) && AllIn(s[a + |t|..], k)
    requires r != [] && InfixAt(r, s, b) && IsTrimmed(r, k)
    requires AllIn(s[..b], k) && AllIn(s[b + |r|..], k)
    ensures t == r
  {
    assert s[a] == t[0] && s[a + |t| - 1] == t[|t| - 1];
    assert s[b] == r[0] && s[b + |r| - 1] == r[|r| - 1];
    PrefixAllIn(s, k, a);
    PrefixAllIn(s, k, b);
    assert a == b;
    SuffixAllIn(s, k, a + |t|);
    SuffixAllIn(s, k, b + |r|);
    assert |t| == |r|;
  }

  /**
   Only the trimmed infix fits that description: an infix that is trimmed
   itself and has nothing but characters of `k` on either side is `Trim(s, k)`.
   */
  lemma TrimCharacterised(s: string, k: CharClass, t: string, a: nat)
    requires InfixAt(t, s, a) && IsTrimmed(t, k)
    requires AllIn(s[..a], k) && AllIn(s[a + |t|..], k)
    ensures Trim(s, k) == t
  {
    var r := Trim(s, k);
    var b: nat :| InfixAt(r, s, b) && AllIn(s[..b], k) && AllIn(s[b + |r|..], k);
    if t == [] {
      PrefixAllIn(s, k, a);
      SuffixAllIn(s, k, a);
      assert AllIn(s, k);
    } else {
      assert s[a] == t[0];
      assert !AllIn(s, k);
      TrimmedInfixUnique(s, k, t, a, r, b);
    }
  }

  /** Number of `.newlines` characters in `s`. */
  function CountNewlines(s: string): nat {
    if |s| == 0 then 0
    else (if IsNewline(s[0]) then 1 else 0) + CountNewlines(s[1..])
  }

  /**
   `s.components(separatedBy: .newlines)`: the pieces between newline
   characters, one more than there are newlines, so "" gives [""] and every
   pair of adjacent newlines gives an empty piece.
   */
  function SplitLines(s: string): (r: seq<string>)
    ensures |r| == CountNewlines(s) + 1
    ensures forall i :: 0 <= i < |r| ==> NoNewline(r[i])
  {
    if |s| == 0 then [""]
    else
      var rest := SplitLines(s[1..]);
      if IsNewline(s[0]) then [""] + rest
      else [[s[0]] + rest[0]] + rest[1..]
  }

  /** `xs.joined(separator: sep)`. */
  function Join(xs: seq<string>, sep: string): string {
    if |xs| == 0 then ""
    else if |xs| == 1 then xs[0]
    else xs[0] + sep + Join(xs[1..], sep)
  }

  /** Where the `i`-th element starts inside `Join(xs, sep)`. */
  function Offset(xs: seq<string>, sep: string, i: nat): nat
    requires i <= |xs|
  {
    if i == 0 then 0 else |xs[0]| + |sep| + Offset(xs[1..], sep, i - 1)
  }

  /** A slice of `a + b` lying past `a` is a slice of `b`. */
  lemma SliceAfter(a: string, b: string, x: nat, y: nat)
    requires x <= y <= |b|
    ensures (a + b)[|a| + x..|a| + y] == b[x..y]
  {
  }

  /** A slice of `a + b` lying inside `a` is a slice of `a`. */
  lemma SliceBefore(a: string, b: string, x: nat, y: nat)
    requires x <= y <= |a|
    ensures (a + b)[x..y] == a[x..y]
  {
  }

  lemma {:induction false} OffsetStep(xs: seq<string>, sep: string, i: nat)
    requires i < |xs|
    ensures Offset(xs, sep, i + 1) == Offset(xs, sep, i) + |xs[i]| + |sep|
  {
    if i > 0 {
      OffsetStep(xs[1..], sep, i - 1);
    }
  }

  lemma {:induction false} JoinLength(xs: seq<string>, sep: string)
    requires |xs| >= 1
    ensures |Join(xs, sep)| == Offset(xs, sep, |xs| - 1) + |xs[|xs| - 1]|
  {
    if |xs| > 1 {
      var t := xs[1..];
      JoinLength(t, sep);
      assert |Join(xs, sep)| == |xs[0]| + |sep| + |Join(t, sep)|;
      assert t[|t| - 1] == xs[|xs| - 1];
      assert Offset(xs, sep, |xs| - 1) == |xs[0]| + |sep| + Offset(t, sep, |t| - 1);
    }
  }

  lemma {:induction false} JoinPiece(xs: seq<string>, sep: string, i: nat)
    requires i < |xs|
    ensures Offset(xs, sep, i) + |xs[i]| <= |Join(xs, sep)|
    ensures Join(xs, sep)[Offset(xs, sep, i)..Offset(xs, sep, i) + |xs[i]|] == xs[i]
  {
    var x := xs[i];
    if |xs| == 1 {
      assert Join(xs, sep) == x;
      assert x[0..|x|] == x;
    } else if i == 0 {
      var rest := sep + Join(xs[1..], sep);
      assert Join(xs, sep) == x + rest;
      SliceBefore(x, rest, 0, |x|);
      assert x[0..|x|] == x;
    } else {
      var pre := xs[0] + sep;
      var t := Join(xs[1..], sep);
      assert Join(xs, sep) == pre + t;
      JoinPiece(xs[1..], sep, i - 1);
      var o := Offset(xs[1..], sep, i - 1);
      assert xs[1..][i - 1] == x;
      assert Offset(xs, sep, i) == |pre| + o;
      SliceAfter(pre, t, o, o + |x|);
    }
  }

  lemma {:induction false} JoinSeparator(xs: seq<string>, sep: string, i: nat)
    requires i + 1 < |xs|
    ensures Offset(xs, sep, i + 1) == Offset(xs, sep, i) + |xs[i]| + |sep|
    ensures Offset(xs, sep, i + 1) <= |Join(xs, sep)|
    ensures Join(xs, sep)[Offset(xs, sep, i) + |xs[i]|..Offset(xs, sep, i + 1)] == sep
  {
    OffsetStep(xs, sep, i);
    var t := Join(xs[1..], sep);
    if i == 0 {
      var x := xs[0];
      assert Join(xs, sep) == x + (sep + t);
      SliceAfter(x, sep + t, 0, |sep|);
      SliceBefore(sep, t, 0, |sep|);
      assert sep[0..|sep|] == sep;
    } else {
      var pre := xs[0] + sep;
      assert Join(xs, sep) == pre + t;
      JoinSeparator(xs[1..], sep, i - 1);
      var o := Offset(xs[1..], sep, i - 1);
      assert xs[1..][i - 1] == xs[i];
      assert Offset(xs, sep, i) == |pre| + o;
      assert Offset(xs, sep, i + 1) == |pre| + Offset(xs[1..], sep, i);
      SliceAfter(pre, t, o + |xs[i]|, Offset(xs[1..], sep, i));
    }
  }

  /**
   The joined string holds element `i` at `Offset(xs, sep, i)`, followed by the
   separator when another element comes after it: every element appears, in
   input order, with exactly one separator between neighbours.
   */
  lemma JoinLayout(xs: seq<string>, sep: string, i: nat)
    requires i < |xs|
    ensures Offset(xs, sep, i) + |xs[i]| <= |Join(xs, sep)|
    ensures Join(xs, sep)[Offset(xs, sep, i)..Offset(xs, sep, i) + |xs[i]|] == xs[i]
    ensures i + 1 < |xs| ==>
      Offset(xs, sep, i + 1) == Offset(xs, sep, i) + |xs[i]| + |sep|
      && Offset(xs, sep, i + 1) <= |Join(xs, sep)|
      && Join(xs, sep)[Offset(xs, sep, i) + |xs[i]|..Offset(xs, sep, i + 1)] == sep
    ensures i + 1 == |xs| ==> Offset(xs, sep, i) + |xs[i]| == |Join(xs, sep)|
  {
    JoinPiece(xs, sep, i);
    if i + 1 < |xs| {
      OffsetStep(xs, sep, i);
      JoinSeparator(xs, sep, i);
    } else {
      JoinLength(xs, sep);
    }
  }

  /** Splitting `x + rest` with a newline-free `x` glues `x` onto the first piece. */
  lemma {:induction false} SplitLinesPrefix(x: string, rest: string)
    requires NoNewline(x)
    ensures SplitLines(x + rest)
      == [x + SplitLines(rest)[0]] + SplitLines(rest)[1..]
  {
    if |x| > 0 {
      var s := x + rest;
      assert s[0] == x[0] && s[1..] == x[1..] + rest;
      SplitLinesPrefix(x[1..], rest);
      assert [x[0]] + (x[1..] + SplitLines(rest)[0]) == x + SplitLines(rest)[0];
    } else {
      assert x + rest == rest;
      var r := SplitLines(rest);
      assert x + r[0] == r[0];
      assert r == [r[0]] + r[1..];
    }
  }

  /**
   `pieces` with `breaks[i]` between `pieces[i]` and `pieces[i + 1]`: text whose
   lines end in any mix of newline characters, CR LF written as two.
   */
  function JoinLines(pieces: seq<string>, breaks: string): string
    requires |pieces| == |breaks| + 1
  {
    if |breaks| == 0 then pieces[0]
    else pieces[0] + [breaks[0]] + JoinLines(pieces[1..], breaks[1..])
  }

  /** Joining with one separator character is joining with that break everywhere. */
  lemma {:induction false} JoinIsJoinLines(xs: seq<string>, c: char)
    requires |xs| >= 1
    ensures Join(xs, [c]) == JoinLines(xs, seq(|xs| - 1, _ => c))
  {
    if |xs| > 1 {
      JoinIsJoinLines(xs[1..], c);
      assert seq(|xs| - 1, _ => c)[1..] == seq(|xs| - 2, _ => c);
    }
  }

  /**
   Splitting undoes joining: newline-free pieces joined with one newline
   character per gap come back exactly, empty pieces included (so CR LF
   yields an empty piece between its two characters).
   */
  lemma {:induction false} SplitJoin(pieces: seq<string>, breaks: string)
    requires |pieces| == |breaks| + 1
    requires forall i :: 0 <= i < |breaks| ==> IsNewline(breaks[i])
    requires forall i :: 0 <= i < |pieces| ==> NoNewline(pieces[i])
    ensures SplitLines(JoinLines(pieces, breaks)) == pieces
  {
    if |breaks| == 0 {
      SplitLinesPrefix(pieces[0], "");
      assert pieces[0] + "" == pieces[0];
    } else {
      var c := breaks[0];
      var tail := JoinLines(pieces[1..], breaks[1..]);
      SplitJoin(pieces[1..], breaks[1..]);
      var s := [c] + tail;
      assert s[0] == c && s[1..] == tail;
      assert SplitLines(s) == [""] + pieces[1..];
      assert JoinLines(pieces, breaks) == pieces[0] + s;
      SplitLinesPrefix(pieces[0], s);
      assert pieces[0] + "" == pieces[0];
      assert pieces == [pieces[0]] + pieces[1..];
    }
  }

  /**
   Joining undoes splitting: when the only newline character in `s` is LF,
   re-joining its lines with "\n" gives `s` back.
   */
  lemma {:induction false} JoinSplit(s: string)
    requires forall i :: 0 <= i < |s| && IsNewline(s[i]) ==> s[i] == '\n'
    ensures Join(SplitLines(s), "\n") == s
  {
    if |s| > 0 {
      var rest := SplitLines(s[1..]);
      JoinSplit(s[1..]);
      if IsNewline(s[0]) {
        assert SplitLines(s) == [""] + rest;
        assert ([""] + rest)[1..] == rest;
        assert s == "\n" + s[1..];
      } else {
        var head := [s[0]] + rest[0];
        assert SplitLines(s) == [head] + rest[1..];
        if |rest| == 1 {
          assert Join(rest, "\n") == rest[0];
        } else {
          assert Join(rest, "\n") == rest[0] + "\n" + Join(rest[1..], "\n");
          assert ([head] + rest[1..])[1..] == rest[1..];
        }
        assert s == [s[0]] + s[1..];
      }
    }
  }
}
