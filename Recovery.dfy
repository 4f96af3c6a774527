/**
 * The JSON recovery routines of app.py: `extract_json_from_response`, which
 * cuts the first bracketed value out of a model's reply, and
 * `fix_truncated_json`, which closes a cut-off array after its last complete
 * object. Each is a loop (a method) proved equal to a specification function,
 * and the lemmas below state what those functions return.
 */
module Recovery {
  import opened Wrappers
  import opened Values
  import opened Text
  import opened Scanner

  predicate IsOpener(c: char)
  {
    c == '{' || c == '['
  }

  function CloserOf(opener: char): char
  {
    if opener == '{' then '}' else ']'
  }

  /** `text.replace('```json', '').replace('```', '').strip()`. */
  function Clean(text: string): (r: string)
    ensures |r| <= |text|
    ensures r != [] ==> !IsSpace(r[0]) && !IsSpace(r[|r| - 1])
  {
    Strip(RemoveAll(RemoveAll(text, "```json"), "```"))
  }

  /** The index of the first `{` or `[` at or after `from`. */
  function FirstOpener(t: string, from: nat): (r: Option<nat>)
    requires from <= |t|
    ensures r.Some? ==> from <= r.value < |t| && IsOpener(t[r.value])
    ensures r.Some? ==> forall k :: from <= k < r.value ==> !IsOpener(t[k])
    ensures r.None? ==> forall k :: from <= k < |t| ==> !IsOpener(t[k])
    decreases |t| - from
  {
    if from == |t| then None
    else if IsOpener(t[from]) then Some(from)
    else FirstOpener(t, from + 1)
  }

  /**
   * What `fix_truncated_json` returns: for a stripped input that starts with
   * `[`, the prefix up to the last `}` that brings the object depth back to
   * zero, closed with `]`, provided that parses.
   */
  function FixSpec(jsonStr: string, decode: Decoder): (r: Option<string>)
    ensures r.Some? ==> |r.value| > 0 && r.value[0] == '[' && Parses(decode, r.value)
  {
    var s := Strip(jsonStr);
    if |s| > 0 && s[0] == '[' then
      var last := LastClose(s, |s|, '{', '}');
      if last > 0 && Parses(decode, s[..last + 1] + "]") then Some(s[..last + 1] + "]")
      else None
    else None
  }

  /** A repaired text is a prefix of the stripped input ending in `}`, closed with `]`. */
  lemma FixShape(jsonStr: string, decode: Decoder)
    requires FixSpec(jsonStr, decode).Some?
    ensures var r := FixSpec(jsonStr, decode).value;
      && |r| >= 2 && r[|r| - 2] == '}' && r[|r| - 1] == ']'
      && r[..|r| - 1] <= Strip(jsonStr)
  {
    var s := Strip(jsonStr);
    var last := LastClose(s, |s|, '{', '}');
    ClosingCharacter(s, 0, last, '{', '}');
    var fixed := s[..last + 1] + "]";
    assert fixed[..|fixed| - 1] == s[..last + 1];
  }

  /**
   * What `extract_json_from_response` returns for a non-empty reply, in terms
   * of the cleaned text `t`. The scan starts at the first `{` or `[` and counts
   * that bracket kind only; at the first return to depth zero the candidate
   * is returned if it parses and None otherwise. If the depth never returns to
   * zero, the whole remainder is tried, then the truncation repair.
   */
  function ExtractCleaned(t: string, decode: Decoder): (r: Option<string>)
    ensures r.Some? ==> |r.value| > 0 && IsOpener(r.value[0]) && Parses(decode, r.value)
    ensures (forall k :: 0 <= k < |t| ==> !IsOpener(t[k])) ==> r.None?
  {
    match FirstOpener(t, 0)
    case None => None
    case Some(start) => ExtractFrom(t, start, decode)
  }

  /** The scan of `ExtractCleaned` from the bracket at `start`. */
  function ExtractFrom(t: string, start: nat, decode: Decoder): (r: Option<string>)
    requires start < |t| && IsOpener(t[start])
    ensures r.Some? ==> |r.value| > 0 && IsOpener(r.value[0]) && Parses(decode, r.value)
  {
    var opener := t[start];
    match FirstClose(t, start, start, opener, CloserOf(opener))
    case Some(i) =>
      if Parses(decode, t[start..i + 1]) then Some(t[start..i + 1]) else None
    case None =>
      if Parses(decode, t[start..]) then Some(t[start..]) else FixSpec(t[start..], decode)
  }

  /** What `extract_json_from_response` returns: None for an empty reply, else the recovery from the cleaned text. */
  function ExtractSpec(text: string, decode: Decoder): (r: Option<string>)
    ensures r.Some? ==> |r.value| > 0 && IsOpener(r.value[0]) && Parses(decode, r.value)
    ensures text == [] ==> r.None?
    ensures (forall k :: 0 <= k < |Clean(text)| ==> !IsOpener(Clean(text)[k])) ==> r.None?
  {
    if text == [] then None else ExtractCleaned(Clean(text), decode)
  }

  /** `fix_truncated_json` (app.py:151-197), as the source runs it. */
  method FixTruncatedJson(jsonStr: string, decode: Decoder) returns (r: Option<string>)
    ensures r == FixSpec(jsonStr, decode)
  {
    var s := Strip(jsonStr);
    if |s| > 0 && s[0] == '[' {
      var lastComplete := LastCompleteObject(s);
      if lastComplete > 0 {
        var fixed := s[..lastComplete + 1] + "]";
        if decode(fixed).Some? {
          return Some(fixed);
        }
      }
    }
    return None;
  }

  /** The scan loop of `fix_truncated_json` (app.py:161-184): the last index where an object closes at the top level. */
  method LastCompleteObject(s: string) returns (lastComplete: int)
    ensures lastComplete == LastClose(s, |s|, '{', '}')
  {
    lastComplete := -1;
    var count := 0;
    var inString := false;
    var escapeNext := false;
    for i := 0 to |s|
      invariant ScanState(count, inString, escapeNext) == Run(s[0..i], '{', '}')
      invariant lastComplete == LastClose(s, i, '{', '}')
    {
      RunStep(s, 0, i, '{', '}');
      var c := s[i];
      if escapeNext {
        escapeNext := false;
      } else if c == '\\' {
        escapeNext := true;
      } else if c == '"' && !escapeNext {
        inString := !inString;
      } else if !inString {
        if c == '{' {
          count := count + 1;
        } else if c == '}' {
          count := count - 1;
          if count == 0 {
            lastComplete := i;
          }
        }
      }
    }
  }

  /** `extract_json_from_response` (app.py:85-149), as the loops the source runs. */
  method ExtractJson(text: string, decode: Decoder) returns (r: Option<string>)
    ensures r == ExtractSpec(text, decode)
  {
    if text == [] {
      return None;
    }
    var t := Clean(text);
    var start := -1;
    for i := 0 to |t|
      invariant start == -1
      invariant FirstOpener(t, 0) == FirstOpener(t, i)
    {
      if t[i] == '{' || t[i] == '[' {
        start := i;
        break;
      }
    }
    if start == -1 {
      return None;
    }
    assert FirstOpener(t, 0) == Some(start);
    r := ScanFromOpener(t, start, decode);
  }

  /** The bracket-counting loop of `extract_json_from_response` (app.py:105-149), from the first bracket on. */
  method ScanFromOpener(t: string, start: nat, decode: Decoder) returns (r: Option<string>)
    requires start < |t| && IsOpener(t[start])
    ensures r == ExtractFrom(t, start, decode)
  {
    var opener := t[start];
    var closer := if opener == '{' then '}' else ']';
    assert closer == CloserOf(opener);
    var count := 0;
    var inString := false;
    var escapeNext := false;
    for i := start to |t|
      invariant ScanState(count, inString, escapeNext) == Run(t[start..i], opener, closer)
      invariant FirstClose(t, start, start, opener, closer) == FirstClose(t, start, i, opener, closer)
    {
      RunStep(t, start, i, opener, closer);
      var c := t[i];
      if escapeNext {
        escapeNext := false;
      } else if c == '\\' {
        escapeNext := true;
      } else if c == '"' && !escapeNext {
        inString := !inString;
      } else if !inString {
        if c == opener {
          count := count + 1;
        } else if c == closer {
          count := count - 1;
          if count == 0 {
            assert ClosesAt(t, start, i, opener, closer);
            assert FirstClose(t, start, start, opener, closer) == Some(i);
            var candidate := t[start..i + 1];
            if decode(candidate).Some? {
              return Some(candidate);
            }
            return None;
          }
        }
      }
      assert ScanState(count, inString, escapeNext) == Run(t[start..i + 1], opener, closer);
      assert !ClosesAt(t, start, i, opener, closer);
    }
    assert FirstClose(t, start, start, opener, closer) == None;
    var rest := t[start..];
    if decode(rest).Some? {
      return Some(rest);
    }
    r := FixTruncatedJson(rest, decode);
  }

  /** `start` is where the scan starts: the first `{` or `[` of `t`. */
  lemma FirstOpenerAt(t: string, start: nat)
    requires start < |t| && IsOpener(t[start])
    requires forall k :: 0 <= k < start ==> !IsOpener(t[k])
    ensures FirstOpener(t, 0) == Some(start)
  {
  }

  /**
   * The balanced case: with `start` the first `{` or `[` of the cleaned text
   * `t` and `i` the first index where its count, taken outside strings and
   * escapes, returns to zero, the result is `t[start..i+1]` if that parses
   * and None otherwise. A candidate that does not parse is not followed by
   * any further scanning or repair.
   */
  lemma ExtractBalanced(t: string, decode: Decoder, start: nat, i: nat)
    requires start <= i < |t|
    requires IsOpener(t[start])
    requires forall k :: 0 <= k < start ==> !IsOpener(t[k])
    requires ClosesAt(t, start, i, t[start], CloserOf(t[start]))
    requires forall j :: start <= j < i ==> !ClosesAt(t, start, j, t[start], CloserOf(t[start]))
    ensures ExtractCleaned(t, decode) == if Parses(decode, t[start..i + 1]) then Some(t[start..i + 1]) else None
  {
    FirstOpenerAt(t, start);
    var fc := FirstClose(t, start, start, t[start], CloserOf(t[start]));
    assert fc == Some(i);
  }

  /**
   * The unbalanced case: when the count never returns to zero, the remainder
   * from the first bracket is returned if it parses, and otherwise the
   * remainder goes through the truncation repair.
   */
  lemma ExtractUnclosed(t: string, decode: Decoder, start: nat)
    requires start < |t|
    requires IsOpener(t[start])
    requires forall k :: 0 <= k < start ==> !IsOpener(t[k])
    requires forall j :: start <= j < |t| ==> !ClosesAt(t, start, j, t[start], CloserOf(t[start]))
    ensures ExtractCleaned(t, decode) == if Parses(decode, t[start..]) then Some(t[start..]) else FixSpec(t[start..], decode)
  {
    FirstOpenerAt(t, start);
    var fc := FirstClose(t, start, start, t[start], CloserOf(t[start]));
    assert fc.None?;
  }

  /**
   * The repair: for `s` the stripped input, it succeeds exactly when `s`
   * starts with `[`, some `}` outside strings brings the object depth back to
   * zero at an index `last > 0` (the last such index is taken), and
   * `s[..last+1] + "]"` parses.
   */
  lemma FixTruncatedResult(jsonStr: string, decode: Decoder, last: nat)
    requires |Strip(jsonStr)| > 0 && Strip(jsonStr)[0] == '['
    requires last < |Strip(jsonStr)| && ClosesAt(Strip(jsonStr), 0, last, '{', '}')
    requires forall j :: last < j < |Strip(jsonStr)| ==> !ClosesAt(Strip(jsonStr), 0, j, '{', '}')
    ensures FixSpec(jsonStr, decode)
            == if Parses(decode, Strip(jsonStr)[..last + 1] + "]") then Some(Strip(jsonStr)[..last + 1] + "]") else None
  {
    var s := Strip(jsonStr);
    var lc := LastClose(s, |s|, '{', '}');
    assert lc == last;
    ClosingCharacter(s, 0, last, '{', '}');
    assert last != 0;
  }

  /** The repair gives up on anything but an array with a completed object in it. */
  lemma FixTruncatedNone(jsonStr: string, decode: Decoder)
    requires || Strip(jsonStr) == []
             || Strip(jsonStr)[0] != '['
             || forall j :: 0 <= j < |Strip(jsonStr)| ==> !ClosesAt(Strip(jsonStr), 0, j, '{', '}')
    ensures FixSpec(jsonStr, decode) == None
  {
  }

  /** Text made only of whitespace yields None: the blank-reply check of the evaluation ladder changes no outcome. */
  lemma BlankTextYieldsNothing(text: string, decode: Decoder)
    requires Strip(text) == []
    ensures ExtractSpec(text, decode) == None
  {
    if text != [] {
      assert AllSpace(text);
      forall pat: string, i: nat | pat != [] && i < |text| && pat[0] == '`'
        ensures !OccursAt(text, pat, i)
      {
      }
      assert text + [] == text;
      RemoveAllKeepsPrefix(text, [], "```json");
      RemoveAllKeepsPrefix(text, [], "```");
      assert Clean(text) == [];
    }
  }

  lemma NotOccursAt(s: string, pat: string, k: nat)
    requires !Occurs(s, pat)
    ensures !OccursAt(s, pat, k)
  {
  }

  /** The three characters at `i` of the text around `s` are those at `i - 1` of `s`. */
  lemma WindowInBody(s: string, x: string, i: nat)
    requires 1 <= i && i + 2 <= |s| && |x| >= |s| + 1 && x[1..|s| + 1] == s
    ensures x[i..i + 3] == s[i - 1..i + 2]
  {
    forall m | i <= m < i + 3
      ensures x[m] == s[m - 1]
    {
      assert x[1..|s| + 1][m - 1] == x[m];
    }
  }

  /** No occurrence of a fence starts at or before the newline that follows `s`. */
  lemma NoFenceBefore(s: string, x: string, pat: string, i: nat)
    requires !Occurs(s, "```")
    requires |pat| >= 3 && pat[..3] == "```"
    requires |x| >= |s| + 2 && x[0] == '\n' && x[1..|s| + 1] == s && x[|s| + 1] == '\n'
    requires i <= |s| + 1
    ensures !OccursAt(x, pat, i)
  {
    if i + |pat| <= |x| {
      var w := x[i..i + |pat|];
      if i == 0 {
        assert w[0] == x[0] != pat[0];
      } else if i + 2 <= |s| {
        NotOccursAt(s, "```", i - 1);
        WindowInBody(s, x, i);
        assert w[..3] == x[i..i + 3];
      } else {
        var j := |s| + 1 - i;
        assert w[j] == x[i + j] != pat[j];
      }
    }
  }

  /** Both `replace` calls remove exactly the fence lines around `s`. */
  lemma FencesRemoved(s: string)
    requires !Occurs(s, "```")
    ensures RemoveAll(RemoveAll("```json\n" + s + "\n```", "```json"), "```") == "\n" + s + "\n"
  {
    var fenced := "```json\n" + s + "\n```";
    var body := "\n" + s + "\n```";
    assert fenced == "```json" + body;
    assert fenced[..7] == "```json";
    assert fenced[7..] == body;
    assert body[1..|s| + 1] == s;
    assert body + [] == body;
    forall i: nat | i < |body|
      ensures !OccursAt(body + [], "```json", i)
    {
      if i <= |s| + 1 {
        NoFenceBefore(s, body, "```json", i);
      }
    }
    RemoveAllKeepsPrefix(body, [], "```json");
    var front := "\n" + s + "\n";
    assert body == front + "```";
    forall i: nat | i < |front|
      ensures !OccursAt(front + "```", "```", i)
    {
      NoFenceBefore(s, body, "```", i);
    }
    RemoveAllKeepsPrefix(front, "```", "```");
    assert RemoveAll("```", "```") == "";
  }

  /** Cleaning a fenced reply gives back the fenced text, when it has non-space ends and no fence marker. */
  lemma CleanFenced(s: string)
    requires |s| > 0 && !IsSpace(s[0]) && !IsSpace(s[|s| - 1])
    requires !Occurs(s, "```")
    ensures Clean("```json\n" + s + "\n```") == s
  {
    FencesRemoved(s);
    StripPadded(s, "\n", "\n");
  }

  /**
   * The round trip: a JSON text whose first bracket closes at its last
   * character, which parses and contains no fence marker, is recovered
   * exactly from a reply that wraps it in a ```json fence.
   */
  lemma FencedRoundTrip(s: string, decode: Decoder)
    requires |s| > 0 && IsOpener(s[0])
    requires ClosesAt(s, 0, |s| - 1, s[0], CloserOf(s[0]))
    requires forall j :: 0 <= j < |s| - 1 ==> !ClosesAt(s, 0, j, s[0], CloserOf(s[0]))
    requires !Occurs(s, "```")
    requires Parses(decode, s)
    ensures ExtractSpec("```json\n" + s + "\n```", decode) == Some(s)
  {
    var text := "```json\n" + s + "\n```";
    ClosingCharacter(s, 0, |s| - 1, s[0], CloserOf(s[0]));
    CleanFenced(s);
    assert ExtractSpec(text, decode) == ExtractCleaned(s, decode);
    ExtractBalanced(s, decode, 0, |s| - 1);
    assert s[0..|s| - 1 + 1] == s;
    assert ExtractCleaned(s, decode) == Some(s);
  }
}
