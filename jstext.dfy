/**
 * The few JavaScript string primitives the route core relies on, written out on
 * `seq<char>`: `String.prototype.split` with a one-character separator and with the
 * regular expression `/\s+/`, the character classes `\s`, `\w` and the line
 * terminators that `.` refuses, `endsWith`, and an ASCII `toLowerCase`.
 */
module JsText {

  /** The characters the JavaScript class `\s` matches (WhiteSpace and LineTerminator). */
  predicate IsSpace(c: char) {
    c == '\t' || c == '\n' || c == '\U{000B}' || c == '\U{000C}' || c == '\r' || c == ' '
    || c == '\U{00A0}' || c == '\U{1680}' || ('\U{2000}' <= c <= '\U{200A}')
    || c == '\U{2028}' || c == '\U{2029}' || c == '\U{202F}' || c == '\U{205F}'
    || c == '\U{3000}' || c == '\U{FEFF}'
  }

  /** The characters the JavaScript class `\w` matches (no `u` or `i` flag). */
  predicate IsWordChar(c: char) {
    ('a' <= c <= 'z') || ('A' <= c <= 'Z') || ('0' <= c <= '9') || c == '_'
  }

  /** The characters the JavaScript `.` refuses to match. */
  predicate IsLineTerminator(c: char) {
    c == '\n' || c == '\r' || c == '\U{2028}' || c == '\U{2029}'
  }

  /** `toLowerCase` restricted to ASCII letters. */
  function LowerChar(c: char): char {
    if 'A' <= c <= 'Z' then (c as int + 32) as char else c
  }

  /** `toLowerCase` on ASCII: each capital becomes its small letter, nothing else moves. */
  function Lower(s: string): (r: string)
    ensures |r| == |s|
    ensures forall i :: 0 <= i < |r| ==> !('A' <= r[i] <= 'Z')
    ensures forall i :: 0 <= i < |s| && 'A' <= s[i] <= 'Z' ==> r[i] as int == s[i] as int + 32
    ensures forall i :: 0 <= i < |s| && !('A' <= s[i] <= 'Z') ==> r[i] == s[i]
  {
    seq(|s|, i requires 0 <= i < |s| => LowerChar(s[i]))
  }

  /** `s` holds `p` at offset `i`. */
  predicate StartsAt(s: string, i: nat, p: string) {
    i + |p| <= |s| && s[i..i + |p|] == p
  }

  /** `String.prototype.endsWith`. */
  predicate EndsWith(s: string, suffix: string) {
    |suffix| <= |s| && s[|s| - |suffix|..] == suffix
  }

  /** The end of the longest run of characters satisfying `p` that starts at `k`. */
  function SpanEnd(s: string, k: nat, p: char -> bool): (j: nat)
    requires k <= |s|
    ensures k <= j <= |s|
    ensures forall i :: k <= i < j ==> p(s[i])
    ensures j == |s| || !p(s[j])
    decreases |s| - k
  {
    if k == |s| || !p(s[k]) then k else SpanEnd(s, k + 1, p)
  }

  /** The first index at or after `k` whose character satisfies `p`, or `|s|`. */
  function IndexWhere(s: string, k: nat, p: char -> bool): (j: nat)
    requires k <= |s|
    ensures k <= j <= |s|
    ensures forall i :: k <= i < j ==> !p(s[i])
    ensures j == |s| || p(s[j])
    decreases |s| - k
  {
    if k == |s| || p(s[k]) then k else IndexWhere(s, k + 1, p)
  }

  /** The first index of `sep` in `s`, or `|s|`. */
  function IndexOf(s: string, sep: char): (j: nat)
    ensures j <= |s|
    ensures sep !in s[..j]
    ensures j == |s| || s[j] == sep
  {
    if |s| == 0 || s[0] == sep then 0
    else
      var j := 1 + IndexOf(s[1..], sep);
      assert s[..j] == [s[0]] + s[1..][..j - 1];
      j
  }

  /** The parts joined with `sep` between consecutive parts. */
  function JoinWith(parts: seq<string>, sep: string): string {
    if |parts| == 0 then ""
    else if |parts| == 1 then parts[0]
    else parts[0] + sep + JoinWith(parts[1..], sep)
  }

  /**
   * `s.split(sep)` for a one-character string separator: the pieces between the
   * occurrences of `sep`, so that joining them back with `sep` gives `s`.
   */
  function SplitOn(s: string, sep: char): (r: seq<string>)
    ensures |r| >= 1
    ensures forall k :: 0 <= k < |r| ==> sep !in r[k]
    ensures JoinWith(r, [sep]) == s
    decreases |s|
  {
    var i := IndexOf(s, sep);
    if i == |s| then
      assert s[..i] == s;
      [s]
    else
      var rest := SplitOn(s[i + 1..], sep);
      assert s == s[..i] + [sep] + s[i + 1..];
      [s[..i]] + rest
  }


  /** Splitting on `sep` undoes joining with `sep` pieces that do not contain it. */
  lemma {:induction false} SplitOnJoin(parts: seq<string>, sep: char)
    requires |parts| >= 1
    requires forall k :: 0 <= k < |parts| ==> sep !in parts[k]
    ensures SplitOn(JoinWith(parts, [sep]), sep) == parts
  {
    var s := JoinWith(parts, [sep]);
    if |parts| == 1 {
      assert IndexOf(s, sep) == |s|;
    } else {
      var tail := JoinWith(parts[1..], [sep]);
      assert s == parts[0] + [sep] + tail;
      SplitOnCons(parts[0], tail, sep);
      SplitOnJoin(parts[1..], sep);
    }
  }

  /** A first piece free of `sep` is split off whole. */
  lemma SplitOnCons(a: string, t: string, sep: char)
    requires sep !in a
    ensures SplitOn(a + [sep] + t, sep) == [a] + SplitOn(t, sep)
  {
    var s := a + [sep] + t;
    assert s[|a|] == sep;
    assert s[..|a|] == a;
    assert s[|a| + 1..] == t;
  }

  /** Joining a concatenation of part lists puts `sep` between the two joins. */
  lemma {:induction false} JoinWithConcat(p: seq<string>, q: seq<string>, sep: string)
    requires |p| >= 1 && |q| >= 1
    ensures JoinWith(p + q, sep) == JoinWith(p, sep) + sep + JoinWith(q, sep)
  {
    if |p| > 1 {
      assert (p + q)[1..] == p[1..] + q;
      JoinWithConcat(p[1..], q, sep);
    } else {
      assert (p + q)[1..] == q;
    }
  }

  /** The lines of `a + "\n" + b` are the lines of `a` followed by the lines of `b`. */
  lemma SplitOnConcat(a: string, b: string, sep: char)
    ensures SplitOn(a + [sep] + b, sep) == SplitOn(a, sep) + SplitOn(b, sep)
  {
    var pa, pb := SplitOn(a, sep), SplitOn(b, sep);
    JoinWithConcat(pa, pb, [sep]);
    SplitOnJoin(pa + pb, sep);
  }

  /** `s` holds no `\s` character. */
  predicate NoSpace(s: string) {
    forall i :: 0 <= i < |s| ==> !IsSpace(s[i])
  }

  /** A non-empty run of `\s` characters. */
  predicate IsSpaceRun(x: string) {
    |x| > 0 && forall i :: 0 <= i < |x| ==> IsSpace(x[i])
  }

  /** Every separator is a non-empty run of `\s` characters. */
  predicate SpaceRuns(seps: seq<string>) {
    forall k :: 0 <= k < |seps| ==> IsSpaceRun(seps[k])
  }

  /** `tokens[0] + seps[0] + tokens[1] + … + seps[n - 2] + tokens[n - 1]`. */
  function Interleave(tokens: seq<string>, seps: seq<string>): string
    requires |tokens| >= 1 && |seps| == |tokens| - 1
  {
    if |tokens| == 1 then tokens[0]
    else tokens[0] + seps[0] + Interleave(tokens[1..], seps[1..])
  }

  /** `s` is `r` interleaved with some non-empty runs of `\s`. */
  ghost predicate RejoinsTo(r: seq<string>, s: string) {
    |r| >= 1 && exists seps :: |seps| == |r| - 1 && SpaceRuns(seps) && Interleave(r, seps) == s
  }

  /** A token, a run of `\s`, then a split of the rest of `s` is a split of `s`. */
  lemma RejoinsCons(s: string, i: nat, j: nat, rest: seq<string>)
    requires i < j <= |s| && IsSpaceRun(s[i..j]) && RejoinsTo(rest, s[j..])
    ensures RejoinsTo([s[..i]] + rest, s)
  {
    var seps :| |seps| == |rest| - 1 && SpaceRuns(seps) && Interleave(rest, seps) == s[j..];
    var r, seps' := [s[..i]] + rest, [s[i..j]] + seps;
    assert r[1..] == rest && seps'[1..] == seps;
    assert s == s[..i] + s[i..j] + s[j..];
    assert Interleave(r, seps') == s;
  }

  /**
   * `s.split(/\s+/)`: the pieces between maximal runs of `\s` characters. A leading
   * or trailing run gives an empty first or last piece, and the empty string gives
   * one empty piece.
   */
  function SplitWs(s: string): (r: seq<string>)
    ensures |r| >= 1
    ensures forall k :: 0 <= k < |r| ==> NoSpace(r[k])
    ensures forall k :: 0 < k < |r| - 1 ==> r[k] != []
    ensures |s| > 0 && !IsSpace(s[0]) ==> r[0] != []
    ensures |s| > 0 && IsSpace(s[0]) ==> r[0] == []
    ensures |s| > 0 && IsSpace(s[|s| - 1]) ==> r[|r| - 1] == []
    decreases |s|
  {
    var i := IndexWhere(s, 0, IsSpace);
    if i == |s| then
      assert s[..i] == s;
      [s]
    else
      var j := SpanEnd(s, i, IsSpace);
      var rest := SplitWs(s[j..]);
      assert j < |s| ==> s[j..][0] == s[j];
      [s[..i]] + rest
  }

  /**
   * The tokens of `s.split(/\s+/)` are its maximal runs of non-`\s` characters in
   * order: interleaving them with the runs of `\s` between them gives `s` back.
   */
  lemma {:induction false} SplitWsRejoins(s: string)
    ensures RejoinsTo(SplitWs(s), s)
    decreases |s|
  {
    if IndexWhere(s, 0, IsSpace) == |s| {
      assert s[..|s|] == s;
      assert Interleave([s], []) == s;
    } else {
      var i, j := SplitWsStep(s);
      SplitWsRejoins(s[j..]);
      RejoinsCons(s, i, j, SplitWs(s[j..]));
    }
  }

  /** The last token of `s.split(/\s+/)` is non-empty when `s` ends in anything but `\s`. */
  lemma SplitWsLastToken(s: string)
    requires |s| > 0 && !IsSpace(s[|s| - 1])
    ensures SplitWs(s)[|SplitWs(s)| - 1] != []
  {
    SplitWsRejoins(s);
    var r := SplitWs(s);
    var seps :| |seps| == |r| - 1 && SpaceRuns(seps) && Interleave(r, seps) == s;
    InterleaveLastToken(r, seps);
  }

  /** Interleaving ends in `\s` when its last token is empty and there are two or more. */
  lemma {:induction false} InterleaveLastToken(tokens: seq<string>, seps: seq<string>)
    requires |tokens| >= 1 && |seps| == |tokens| - 1 && SpaceRuns(seps)
    ensures var s := Interleave(tokens, seps);
      |s| > 0 && !IsSpace(s[|s| - 1]) ==> tokens[|tokens| - 1] != []
  {
    if |tokens| > 1 {
      var s := Interleave(tokens, seps);
      var tail := Interleave(tokens[1..], seps[1..]);
      assert s == tokens[0] + seps[0] + tail;
      if |tokens| == 2 {
        assert tail == tokens[1];
        assert tokens[1] == [] ==> s[|s| - 1] == seps[0][|seps[0]| - 1];
      } else {
        assert tail == tokens[1] + seps[1] + Interleave(tokens[2..], seps[2..]);
        assert s[|s| - 1] == tail[|tail| - 1];
        InterleaveLastToken(tokens[1..], seps[1..]);
      }
    }
  }

  /** One step of `SplitWs` on a string holding `\s`: the first token and the run after it. */
  lemma SplitWsStep(s: string) returns (i: nat, j: nat)
    requires IndexWhere(s, 0, IsSpace) < |s|
    ensures i < j <= |s|
    ensures IsSpaceRun(s[i..j])
    ensures SplitWs(s) == [s[..i]] + SplitWs(s[j..])
  {
    i := IndexWhere(s, 0, IsSpace);
    j := SpanEnd(s, i, IsSpace);
    assert IsSpaceRun(s[i..j]) by {
      assert forall k :: 0 <= k < j - i ==> s[i..j][k] == s[i + k];
    }
  }

  /**
   * Splitting on `/\s+/` undoes interleaving with runs of `\s`, for tokens free of
   * `\s` whose interior members are non-empty.
   */
  lemma {:induction false} SplitWsInterleave(tokens: seq<string>, seps: seq<string>)
    requires |tokens| >= 1 && |seps| == |tokens| - 1 && SpaceRuns(seps)
    requires forall k :: 0 <= k < |tokens| ==> NoSpace(tokens[k])
    requires forall k :: 0 < k < |tokens| - 1 ==> tokens[k] != []
    ensures SplitWs(Interleave(tokens, seps)) == tokens
  {
    var s := Interleave(tokens, seps);
    if |tokens| == 1 {
      assert IndexWhere(s, 0, IsSpace) == |s|;
      assert s[..|s|] == s;
    } else {
      var tail := Interleave(tokens[1..], seps[1..]);
      assert |tail| > 0 ==> tail[0] == tokens[1][0] by {
        if |tokens| > 2 {
          assert tail == tokens[1] + seps[1] + Interleave(tokens[2..], seps[2..]);
        }
      }
      SplitWsFront(tokens[0], seps[0], tail);
      SplitWsInterleave(tokens[1..], seps[1..]);
    }
  }

  /** A token free of `\s`, then a run of `\s`, is split off whole. */
  lemma SplitWsFront(t0: string, sep: string, tail: string)
    requires NoSpace(t0)
    requires IsSpaceRun(sep)
    requires |tail| > 0 ==> !IsSpace(tail[0])
    ensures SplitWs(t0 + sep + tail) == [t0] + SplitWs(tail)
  {
    var s := t0 + sep + tail;
    assert IndexWhere(s, 0, IsSpace) == |t0| by {
      assert s[|t0|] == sep[0];
      assert forall i :: 0 <= i < |t0| ==> s[i] == t0[i];
    }
    assert SpanEnd(s, |t0|, IsSpace) == |t0| + |sep| by {
      assert forall i :: |t0| <= i < |t0| + |sep| ==> s[i] == sep[i - |t0|];
      if |tail| > 0 {
        assert s[|t0| + |sep|] == tail[0];
      }
    }
    assert s[..|t0|] == t0;
    assert s[|t0| + |sep|..] == tail;
  }
}
