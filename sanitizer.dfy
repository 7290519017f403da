/**
 * The response sanitiser: five literal replace-all passes applied, in a fixed
 * order, to the text the inference server returned.
 */
module Sanitizer {

  /** `pat` occurs in `s` starting at position `i`. */
  predicate IsAt(s: string, i: nat, pat: string)
  {
    i + |pat| <= |s| && s[i..i + |pat|] == pat
  }

  /** `pat` occurs somewhere in `s`. */
  predicate Contains(s: string, pat: string)
  {
    exists i: nat | i <= |s| :: IsAt(s, i, pat)
  }

  /**
   * Replaces every occurrence of the non-empty pattern `pat` in `s` by `rep`,
   * scanning left to right; matches do not overlap and the replacement text
   * is never scanned again, so this is the semantics of Rust's `str::replace`.
   */
  function ReplaceAll(s: string, pat: string, rep: string): string
    requires pat != []
    decreases |s|
  {
    if |s| < |pat| then s
    else if s[..|pat|] == pat then rep + ReplaceAll(s[|pat|..], pat, rep)
    else [s[0]] + ReplaceAll(s[1..], pat, rep)
  }

  const EscapedNewline: string := "\\n"
  const Newline: string := "\n"
  const EscapedQuote: string := "\\\""
  const Quote: string := "\""
  const JsonFence: string := "```json"
  const Fence: string := "```"

  /** `clean_json_response`: the five passes, in the source's order. */
  function Clean(response: string): string
  {
    var noEscapedNewlines := ReplaceAll(response, EscapedNewline, "");
    var noNewlines := ReplaceAll(noEscapedNewlines, Newline, "");
    var plainQuotes := ReplaceAll(noNewlines, EscapedQuote, Quote);
    var noJsonFences := ReplaceAll(plainQuotes, JsonFence, "");
    ReplaceAll(noJsonFences, Fence, "")
  }

  // ---------------------------------------------------------------------------
  // Properties of one replace-all pass

  /** An occurrence in the tail of `s` is an occurrence in `s`, one position on. */
  lemma IsAtTail(s: string, i: nat, pat: string)
    requires s != []
    ensures IsAt(s[1..], i, pat) <==> IsAt(s, i + 1, pat)
  {
    if i + |pat| <= |s[1..]| {
      assert s[1..][i..i + |pat|] == s[i + 1..i + 1 + |pat|];
    }
  }

  /** A pass never lengthens the text when the replacement is no longer than the pattern. */
  lemma {:induction false} ReplaceAllNotLonger(s: string, pat: string, rep: string)
    requires pat != [] && |rep| <= |pat|
    ensures |ReplaceAll(s, pat, rep)| <= |s|
    decreases |s|
  {
    if |s| < |pat| {
    } else if s[..|pat|] == pat {
      ReplaceAllNotLonger(s[|pat|..], pat, rep);
    } else {
      ReplaceAllNotLonger(s[1..], pat, rep);
    }
  }

  /** A pass leaves a text in which the pattern does not occur unchanged. */
  lemma {:induction false} ReplaceAllAbsent(s: string, pat: string, rep: string)
    requires pat != [] && !Contains(s, pat)
    ensures ReplaceAll(s, pat, rep) == s
    decreases |s|
  {
    if |s| < |pat| {
    } else {
      assert !IsAt(s, 0, pat);
      forall i: nat | i <= |s[1..]|
        ensures !IsAt(s[1..], i, pat)
      {
        IsAtTail(s, i, pat);
      }
      ReplaceAllAbsent(s[1..], pat, rep);
    }
  }

  /** A text lacking one of the pattern's characters does not contain the pattern. */
  lemma MissingCharMeansAbsent(s: string, pat: string, k: nat)
    requires k < |pat| && pat[k] !in s
    ensures !Contains(s, pat)
  {
    forall i: nat | i <= |s|
      ensures !IsAt(s, i, pat)
    {
      if i + |pat| <= |s| {
        assert s[i..i + |pat|][k] == s[i + k];
      }
    }
  }

  /** A character found neither in the text nor in the replacement is not in the result. */
  lemma {:induction false} ReplaceAllKeepsOut(s: string, pat: string, rep: string, c: char)
    requires pat != [] && c !in s && c !in rep
    ensures c !in ReplaceAll(s, pat, rep)
    decreases |s|
  {
    if |s| < |pat| {
    } else if s[..|pat|] == pat {
      assert c !in s[|pat|..] by {
        forall k | 0 <= k < |s[|pat|..]| ensures s[|pat|..][k] != c {
          assert s[|pat|..][k] == s[|pat| + k];
        }
      }
      ReplaceAllKeepsOut(s[|pat|..], pat, rep, c);
    } else {
      assert c !in s[1..] by {
        forall k | 0 <= k < |s[1..]| ensures s[1..][k] != c {
          assert s[1..][k] == s[1 + k];
        }
      }
      ReplaceAllKeepsOut(s[1..], pat, rep, c);
    }
  }

  /** Deleting a one-character pattern removes every copy of that character. */
  lemma {:induction false} RemoveCharRemovesAll(s: string, c: char)
    ensures c !in ReplaceAll(s, [c], "")
    decreases |s|
  {
    if |s| < 1 {
    } else if s[..1] == [c] {
      RemoveCharRemovesAll(s[1..], c);
    } else {
      assert s[0] != c;
      RemoveCharRemovesAll(s[1..], c);
    }
  }

  /**
   * A prefix free of the pattern's first character is copied through untouched:
   * the pass proceeds as if it started right after it.
   */
  lemma {:induction false} ReplaceAllSkipsPrefix(a: string, b: string, pat: string, rep: string)
    requires pat != [] && pat[0] !in a
    ensures ReplaceAll(a + b, pat, rep) == a + ReplaceAll(b, pat, rep)
    decreases |a|
  {
    if a != [] {
      var s := a + b;
      assert s[0] == a[0];
      assert s[1..] == a[1..] + b;
      ReplaceAllSkipsPrefix(a[1..], b, pat, rep);
      if |s| < |pat| {
        assert ReplaceAll(b, pat, rep) == b;
      } else {
        assert s[..|pat|][0] != pat[0];
        calc {
          ReplaceAll(s, pat, rep);
          [a[0]] + ReplaceAll(a[1..] + b, pat, rep);
          [a[0]] + (a[1..] + ReplaceAll(b, pat, rep));
          { assert [a[0]] + a[1..] == a; }
          a + ReplaceAll(b, pat, rep);
        }
      }
    } else {
      assert a + b == b;
    }
  }

  /** A text that starts with the pattern loses that occurrence first. */
  lemma ReplaceAllAtMatch(b: string, pat: string, rep: string)
    requires pat != []
    ensures ReplaceAll(pat + b, pat, rep) == rep + ReplaceAll(b, pat, rep)
  {
    assert (pat + b)[..|pat|] == pat;
    assert (pat + b)[|pat|..] == b;
  }

  // ---------------------------------------------------------------------------
  // The final pass: runs of backticks

  /** `k` backticks. */
  function Backticks(k: nat): (r: string)
    ensures |r| == k
  {
    if k == 0 then "" else "`" + Backticks(k - 1)
  }

  lemma FenceAt(s: string, i: nat)
    ensures IsAt(s, i, Fence) <==> i + 3 <= |s| && s[i] == '`' && s[i + 1] == '`' && s[i + 2] == '`'
  {
    if i + 3 <= |s| && s[i] == '`' && s[i + 1] == '`' && s[i + 2] == '`' {
      assert s[i..i + 3] == Fence;
    }
  }

  /** The fence pass copies a leading character other than a backtick. */
  lemma FencePassKeepsHead(s: string)
    requires s != [] && s[0] != '`'
    ensures ReplaceAll(s, Fence, "") != [] && ReplaceAll(s, Fence, "")[0] == s[0]
  {
    if |s| >= 3 {
      FenceAt(s, 0);
    }
  }

  /** Where the text does not start with the pattern, its first character is copied. */
  lemma ReplaceAllCopiesHead(s: string, pat: string, rep: string)
    requires pat != [] && s != [] && !IsAt(s, 0, pat)
    ensures ReplaceAll(s, pat, rep) == [s[0]] + ReplaceAll(s[1..], pat, rep)
  {
    if |s| < |pat| {
      assert ReplaceAll(s[1..], pat, rep) == s[1..];
      assert [s[0]] + s[1..] == s;
    }
  }

  /** A lone backtick before a non-backtick is copied. */
  lemma FencePassOneTick(rest: string)
    requires rest == [] || rest[0] != '`'
    ensures ReplaceAll(Backticks(1) + rest, Fence, "") == Backticks(1) + ReplaceAll(rest, Fence, "")
  {
    var s := Backticks(1) + rest;
    assert s[0] == '`' && s[1..] == rest;
    FenceAt(s, 0);
    ReplaceAllCopiesHead(s, Fence, "");
  }

  /** Two backticks before a non-backtick are copied. */
  lemma FencePassTwoTicks(rest: string)
    requires rest == [] || rest[0] != '`'
    ensures ReplaceAll(Backticks(2) + rest, Fence, "") == Backticks(2) + ReplaceAll(rest, Fence, "")
  {
    var s := Backticks(2) + rest;
    assert Backticks(2) == "`" + Backticks(1);
    assert s[0] == '`' && s[1..] == Backticks(1) + rest;
    FenceAt(s, 0);
    ReplaceAllCopiesHead(s, Fence, "");
    FencePassOneTick(rest);
  }

  /** Three leading backticks are deleted and the pass carries on after them. */
  lemma FencePassDropsFence(k: nat, rest: string)
    requires k >= 3
    ensures ReplaceAll(Backticks(k) + rest, Fence, "") == ReplaceAll(Backticks(k - 3) + rest, Fence, "")
  {
    var tail := Backticks(k - 3);
    assert Backticks(k - 2) == "`" + tail;
    assert Backticks(k - 1) == "``" + tail;
    assert Backticks(k) == Fence + tail;
    assert Backticks(k) + rest == Fence + (tail + rest);
    ReplaceAllAtMatch(Backticks(k - 3) + rest, Fence, "");
    assert "" + ReplaceAll(Backticks(k - 3) + rest, Fence, "") == ReplaceAll(Backticks(k - 3) + rest, Fence, "");
  }

  lemma ModThreeStep(k: nat)
    requires k >= 3
    ensures (k - 3) % 3 == k % 3
  {
  }

  /**
   * A run of `k` backticks followed by anything but a backtick comes out as
   * `k % 3` backticks, and the pass then carries on after the run.
   */
  lemma {:induction false} FencePassOnRun(k: nat, rest: string)
    requires rest == [] || rest[0] != '`'
    ensures ReplaceAll(Backticks(k) + rest, Fence, "") == Backticks(k % 3) + ReplaceAll(rest, Fence, "")
  {
    if k >= 3 {
      FencePassOnRun(k - 3, rest);
      FencePassDropsFence(k, rest);
      ModThreeStep(k);
    } else if k == 2 {
      FencePassTwoTicks(rest);
    } else if k == 1 {
      FencePassOneTick(rest);
    } else {
      assert Backticks(0) + rest == rest;
    }
  }

  /** Prepending a character to a fence-free text keeps it fence-free unless it completes a fence. */
  lemma ConsNoFence(c: char, t: string)
    requires !Contains(t, Fence)
    requires !(c == '`' && |t| >= 2 && t[0] == '`' && t[1] == '`')
    ensures !Contains([c] + t, Fence)
  {
    var s := [c] + t;
    assert s[1..] == t;
    forall i: nat | i <= |s|
      ensures !IsAt(s, i, Fence)
    {
      FenceAt(s, i);
      if i > 0 {
        IsAtTail(s, i - 1, Fence);
      }
    }
  }

  /** After the fence pass no three backticks are left in a row. */
  lemma {:induction false} FencePassRemovesFences(s: string)
    ensures !Contains(ReplaceAll(s, Fence, ""), Fence)
    decreases |s|
  {
    var r := ReplaceAll(s, Fence, "");
    if |s| < 3 {
      forall i: nat | i <= |r| ensures !IsAt(r, i, Fence) { }
    } else if s[..3] == Fence {
      assert r == ReplaceAll(s[3..], Fence, "");
      FencePassRemovesFences(s[3..]);
    } else {
      var t := ReplaceAll(s[1..], Fence, "");
      assert r == [s[0]] + t;
      FencePassRemovesFences(s[1..]);
      if s[0] == '`' {
        FenceAt(s, 0);
        if s[1] != '`' {
          FencePassKeepsHead(s[1..]);
        } else {
          assert s[2] != '`';
          if |s[1..]| < 3 {
            assert t == s[1..];
          } else {
            FenceAt(s[1..], 0);
            assert s[1..][1..] == s[2..];
            FencePassKeepsHead(s[2..]);
            assert t == [s[1]] + ReplaceAll(s[2..], Fence, "");
          }
        }
      }
      ConsNoFence(s[0], t);
    }
  }

  // ---------------------------------------------------------------------------
  // Properties of the whole sanitiser

  /** The cleaned text never contains a code-fence marker. */
  lemma CleanHasNoFence(response: string)
    ensures !Contains(Clean(response), Fence)
  {
    var noEscapedNewlines := ReplaceAll(response, EscapedNewline, "");
    var noNewlines := ReplaceAll(noEscapedNewlines, Newline, "");
    var plainQuotes := ReplaceAll(noNewlines, EscapedQuote, Quote);
    var noJsonFences := ReplaceAll(plainQuotes, JsonFence, "");
    FencePassRemovesFences(noJsonFences);
  }

  /** The cleaned text contains no newline: the second pass removes them and no later pass adds one. */
  lemma CleanHasNoNewline(response: string)
    ensures '\n' !in Clean(response)
  {
    var noEscapedNewlines := ReplaceAll(response, EscapedNewline, "");
    var noNewlines := ReplaceAll(noEscapedNewlines, Newline, "");
    RemoveCharRemovesAll(noEscapedNewlines, '\n');
    var plainQuotes := ReplaceAll(noNewlines, EscapedQuote, Quote);
    ReplaceAllKeepsOut(noNewlines, EscapedQuote, Quote, '\n');
    var noJsonFences := ReplaceAll(plainQuotes, JsonFence, "");
    ReplaceAllKeepsOut(plainQuotes, JsonFence, "", '\n');
    ReplaceAllKeepsOut(noJsonFences, Fence, "", '\n');
  }

  /** The cleaned text is never longer than the reply. */
  lemma CleanNotLonger(response: string)
    ensures |Clean(response)| <= |response|
  {
    var noEscapedNewlines := ReplaceAll(response, EscapedNewline, "");
    ReplaceAllNotLonger(response, EscapedNewline, "");
    var noNewlines := ReplaceAll(noEscapedNewlines, Newline, "");
    ReplaceAllNotLonger(noEscapedNewlines, Newline, "");
    var plainQuotes := ReplaceAll(noNewlines, EscapedQuote, Quote);
    ReplaceAllNotLonger(noNewlines, EscapedQuote, Quote);
    var noJsonFences := ReplaceAll(plainQuotes, JsonFence, "");
    ReplaceAllNotLonger(plainQuotes, JsonFence, "");
    ReplaceAllNotLonger(noJsonFences, Fence, "");
  }

  /** A reply containing none of the five patterns is returned unchanged. */
  lemma CleanIdentity(response: string)
    requires !Contains(response, EscapedNewline) && !Contains(response, Newline)
    requires !Contains(response, EscapedQuote) && !Contains(response, JsonFence)
    requires !Contains(response, Fence)
    ensures Clean(response) == response
  {
    ReplaceAllAbsent(response, EscapedNewline, "");
    ReplaceAllAbsent(response, Newline, "");
    ReplaceAllAbsent(response, EscapedQuote, Quote);
    ReplaceAllAbsent(response, JsonFence, "");
    ReplaceAllAbsent(response, Fence, "");
  }

  /** On a reply free of the five patterns, cleaning twice is cleaning once. */
  lemma CleanIdempotentOnPatternFree(response: string)
    requires !Contains(response, EscapedNewline) && !Contains(response, Newline)
    requires !Contains(response, EscapedQuote) && !Contains(response, JsonFence)
    requires !Contains(response, Fence)
    ensures Clean(Clean(response)) == Clean(response)
  {
    CleanIdentity(response);
  }

  /** A reply without backslashes, newlines and backticks is returned unchanged. */
  lemma CleanKeepsPlainText(response: string)
    requires '\\' !in response && '\n' !in response && '`' !in response
    ensures Clean(response) == response
  {
    assert response + "" == response;
    ReplaceAllSkipsPrefix(response, "", EscapedNewline, "");
    ReplaceAllSkipsPrefix(response, "", Newline, "");
    ReplaceAllSkipsPrefix(response, "", EscapedQuote, Quote);
    ReplaceAllSkipsPrefix(response, "", JsonFence, "");
    ReplaceAllSkipsPrefix(response, "", Fence, "");
  }

  /** The newline pass copies a line without newlines and deletes the newline ending it. */
  lemma NewlinePassJoinsLine(line: string, rest: string)
    requires '\n' !in line
    ensures ReplaceAll(line + (Newline + rest), Newline, "") == line + ReplaceAll(rest, Newline, "")
  {
    ReplaceAllSkipsPrefix(line, Newline + rest, Newline, "");
    ReplaceAllAtMatch(rest, Newline, "");
    assert "" + ReplaceAll(rest, Newline, "") == ReplaceAll(rest, Newline, "");
  }

  /** The second pass joins the three lines of a fenced block. */
  lemma FencedBlockJoined(body: string)
    requires '\n' !in body && '`' !in body
    ensures ReplaceAll(JsonFence + Newline + body + Newline + Fence, Newline, "") == JsonFence + (body + Fence)
  {
    assert JsonFence + Newline + body + Newline + Fence == JsonFence + (Newline + (body + (Newline + Fence)));
    NewlinePassJoinsLine(JsonFence, body + (Newline + Fence));
    NewlinePassJoinsLine(body, Fence);
    assert Fence + "" == Fence;
    ReplaceAllSkipsPrefix(Fence, "", Newline, "");
  }

  /** The fourth and fifth passes strip the markers round a joined block. */
  lemma FencedBlockStripped(body: string)
    requires '`' !in body
    ensures ReplaceAll(ReplaceAll(JsonFence + (body + Fence), JsonFence, ""), Fence, "") == body
  {
    ReplaceAllAtMatch(body + Fence, JsonFence, "");
    ReplaceAllSkipsPrefix(body, Fence, JsonFence, "");
    assert ReplaceAll(JsonFence + (body + Fence), JsonFence, "") == body + Fence;
    ReplaceAllSkipsPrefix(body, Fence, Fence, "");
    ReplaceAllAtMatch("", Fence, "");
    assert body + "" == body;
  }

  /**
   * A reply made of an opening "```json" line, one line of plain text and a
   * closing "```" line is reduced to that plain text.
   */
  lemma CleanFencedBlock(body: string)
    requires '\\' !in body && '\n' !in body && '`' !in body
    ensures Clean(JsonFence + Newline + body + Newline + Fence) == body
  {
    var s := JsonFence + Newline + body + Newline + Fence;
    // No backslash anywhere: the first and third passes change nothing.
    assert '\\' !in s;
    assert s + "" == s;
    ReplaceAllSkipsPrefix(s, "", EscapedNewline, "");
    FencedBlockJoined(body);
    var joined := JsonFence + (body + Fence);
    assert '\\' !in joined;
    assert joined + "" == joined;
    ReplaceAllSkipsPrefix(joined, "", EscapedQuote, Quote);
    FencedBlockStripped(body);
  }

  /** The text "No content" passes through cleaning unchanged. */
  lemma CleanPlaceholder()
    ensures Clean("No content") == "No content"
  {
    CleanKeepsPlainText("No content");
  }

  /** The fenced reply `{"ok":true}` over three lines is reduced to `{"ok":true}`. */
  lemma CleanFencedReply()
    ensures Clean("```json\n{\"ok\":true}\n```") == "{\"ok\":true}"
  {
    var body := "{\"ok\":true}";
    assert JsonFence + Newline == "```json\n";
    assert "```json\n" + body == "```json\n{\"ok\":true}";
    assert "```json\n{\"ok\":true}" + Newline == "```json\n{\"ok\":true}\n";
    assert "```json\n{\"ok\":true}\n" + Fence == "```json\n{\"ok\":true}\n```";
    CleanFencedBlock(body);
  }

  /**
   * Cleaning is not idempotent in general: deleting a backslash-n can bring
   * a backslash and an `n` together, and cleaning again deletes those.
   */
  lemma CleanNotIdempotent()
    ensures Clean("\\\\nn") == "\\n"
    ensures Clean("\\n") == ""
  {
    var s := "\\\\nn";
    assert s[..2][1] != EscapedNewline[1];
    assert s[1..] == EscapedNewline + "n";
    ReplaceAllAtMatch("n", EscapedNewline, "");
    var once := "\\n";
    assert ReplaceAll(s, EscapedNewline, "") == once;
    CleanKeepsPlainTextAfterFirstPass(once);
    ReplaceAllAtMatch("", EscapedNewline, "");
    assert "" + "" == "";
    CleanKeepsPlainTextAfterFirstPass("");
  }

  /** The last four passes change nothing in a text without newlines, backticks or quotes. */
  lemma CleanKeepsPlainTextAfterFirstPass(t: string)
    requires '\n' !in t && '`' !in t && '"' !in t
    ensures ReplaceAll(ReplaceAll(ReplaceAll(ReplaceAll(t, Newline, ""), EscapedQuote, Quote), JsonFence, ""), Fence, "") == t
  {
    assert t + "" == t;
    ReplaceAllSkipsPrefix(t, "", Newline, "");
    MissingCharMeansAbsent(t, EscapedQuote, 1);
    ReplaceAllAbsent(t, EscapedQuote, Quote);
    ReplaceAllSkipsPrefix(t, "", JsonFence, "");
    ReplaceAllSkipsPrefix(t, "", Fence, "");
  }
}
