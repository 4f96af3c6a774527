/**
 * The bracket-counting scan shared by `extract_json_from_response` and
 * `fix_truncated_json` (app.py): a left-to-right pass that tracks a depth
 * counter, an "inside a string" flag toggled by `"`, and an "escape next"
 * flag set by a backslash. Only one bracket pair is counted per scan.
 */
module Scanner {
  import opened Wrappers

  datatype ScanState = ScanState(depth: int, inString: bool, escapeNext: bool)

  const Start := ScanState(0, false, false)

  /**
   * One iteration of the scan loop on character `c`. A backslash skips the
   * next character whether or not a string is open, and brackets count only
   * outside strings.
   */
  function Step(st: ScanState, c: char, opener: char, closer: char): ScanState
  {
    if st.escapeNext then st.(escapeNext := false)
    else if c == '\\' then st.(escapeNext := true)
    else if c == '"' then st.(inString := !st.inString)
    else if st.inString then st
    else if c == opener then st.(depth := st.depth + 1)
    else if c == closer then st.(depth := st.depth - 1)
    else st
  }

  /** The state after scanning `s` from `st`. */
  function RunFrom(st: ScanState, s: string, opener: char, closer: char): ScanState
    decreases |s|
  {
    if s == [] then st
    else Step(RunFrom(st, s[..|s| - 1], opener, closer), s[|s| - 1], opener, closer)
  }

  /** The state after scanning `s` from the loop's initial values. */
  function Run(s: string, opener: char, closer: char): ScanState
  {
    RunFrom(Start, s, opener, closer)
  }

  /** The scan of `s[start..]` brings the depth from one back to zero at index `i`. */
  predicate ClosesAt(s: string, start: nat, i: nat, opener: char, closer: char)
    requires start <= i < |s|
  {
    Run(s[start..i], opener, closer).depth == 1 && Run(s[start..i + 1], opener, closer).depth == 0
  }

  /** One more character is one more step. */
  lemma RunStep(s: string, start: nat, i: nat, opener: char, closer: char)
    requires start <= i < |s|
    ensures Run(s[start..i + 1], opener, closer) == Step(Run(s[start..i], opener, closer), s[i], opener, closer)
  {
    assert s[start..i + 1][..i - start] == s[start..i];
  }

  /** Scanning a concatenation is scanning its parts in turn. */
  lemma {:induction false} RunFromAppend(st: ScanState, p: string, q: string, opener: char, closer: char)
    ensures RunFrom(st, p + q, opener, closer) == RunFrom(RunFrom(st, p, opener, closer), q, opener, closer)
    decreases |q|
  {
    if q == [] {
      assert p + q == p;
    } else {
      var q' := q[..|q| - 1];
      assert (p + q)[..|p + q| - 1] == p + q';
      RunFromAppend(st, p, q', opener, closer);
    }
  }

  lemma RunFromTwo(st: ScanState, c: char, d: char, opener: char, closer: char)
    ensures RunFrom(st, [c], opener, closer) == Step(st, c, opener, closer)
    ensures RunFrom(st, [c, d], opener, closer) == Step(Step(st, c, opener, closer), d, opener, closer)
  {
    assert [c][..0] == [];
    assert [c, d][..1] == [c];
  }

  /** The depth only drops from one to zero on the closing character. */
  lemma ClosingCharacter(s: string, start: nat, i: nat, opener: char, closer: char)
    requires start <= i < |s|
    requires ClosesAt(s, start, i, opener, closer)
    ensures s[i] == closer && s[i] != opener
  {
    RunStep(s, start, i, opener, closer);
  }

  /**
   * The first index at or after `from` where the scan of `s[start..]`
   * returns to depth zero: where `extract_json_from_response` stops.
   */
  function FirstClose(s: string, start: nat, from: nat, opener: char, closer: char): (r: Option<nat>)
    requires start <= from <= |s|
    ensures r.Some? ==> from <= r.value < |s| && ClosesAt(s, start, r.value, opener, closer)
    ensures r.Some? ==> forall j :: from <= j < r.value ==> !ClosesAt(s, start, j, opener, closer)
    ensures r.None? ==> forall j :: from <= j < |s| ==> !ClosesAt(s, start, j, opener, closer)
    decreases |s| - from
  {
    if from == |s| then None
    else if ClosesAt(s, start, from, opener, closer) then Some(from)
    else FirstClose(s, start, from + 1, opener, closer)
  }

  /**
   * The last index below `n` where the scan of `s` returns to depth zero,
   * or -1: the `last_complete` of `fix_truncated_json`.
   */
  function LastClose(s: string, n: nat, opener: char, closer: char): (r: int)
    requires n <= |s|
    ensures -1 <= r < n
    ensures 0 <= r ==> ClosesAt(s, 0, r, opener, closer)
    ensures forall j :: r < j < n && 0 <= j ==> !ClosesAt(s, 0, j, opener, closer)
  {
    if n == 0 then -1
    else if ClosesAt(s, 0, n - 1, opener, closer) then n - 1
    else LastClose(s, n - 1, opener, closer)
  }

  /**
   * The body of a JSON string literal as the scanner reads it: any characters
   * but `"` and `\`, and escape pairs `\` followed by any character.
   */
  predicate StringBody(q: string)
    decreases |q|
  {
    || q == []
    || (|q| >= 2 && q[0] == '\\' && StringBody(q[2..]))
    || (q[0] != '\\' && q[0] != '"' && StringBody(q[1..]))
  }

  /** Inside an open string, a string body changes nothing: its brackets are not counted. */
  lemma {:induction false} StringBodyIgnored(st: ScanState, q: string, opener: char, closer: char)
    requires st.inString && !st.escapeNext
    requires StringBody(q)
    ensures RunFrom(st, q, opener, closer) == st
    decreases |q|
  {
    if q == [] {
    } else {
      var n := if q[0] == '\\' && |q| >= 2 && StringBody(q[2..]) then 2 else 1;
      assert q == q[..n] + q[n..];
      RunFromAppend(st, q[..n], q[n..], opener, closer);
      RunFromTwo(st, q[0], q[n - 1], opener, closer);
      if n == 2 {
        assert q[..n] == [q[0], q[1]];
      } else {
        assert q[..n] == [q[0]];
      }
      StringBodyIgnored(st, q[n..], opener, closer);
    }
  }

  /**
   * A complete quoted string leaves the scan exactly as it was, whatever
   * brackets it contains.
   */
  lemma QuotedStringIgnored(p: string, q: string, opener: char, closer: char)
    requires !Run(p, opener, closer).inString && !Run(p, opener, closer).escapeNext
    requires StringBody(q)
    ensures Run(p + ['"'] + q + ['"'], opener, closer) == Run(p, opener, closer)
  {
    var st := Run(p, opener, closer);
    RunFromAppend(Start, p + ['"'] + q, ['"'], opener, closer);
    RunFromAppend(Start, p + ['"'], q, opener, closer);
    RunFromAppend(Start, p, ['"'], opener, closer);
    RunFromTwo(st, '"', '"', opener, closer);
    RunFromTwo(st.(inString := true), '"', '"', opener, closer);
    StringBodyIgnored(st.(inString := true), q, opener, closer);
  }

  /** A backslash skips the next character, even outside strings. */
  lemma EscapedCharacterIgnored(p: string, c: char, opener: char, closer: char)
    requires !Run(p, opener, closer).escapeNext
    ensures Run(p + ['\\', c], opener, closer) == Run(p, opener, closer)
  {
    RunFromAppend(Start, p, ['\\', c], opener, closer);
    RunFromTwo(Run(p, opener, closer), '\\', c, opener, closer);
  }
}
