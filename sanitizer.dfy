/**
  The clean-up that `extract_with_gemini` (ocr_utils.py) applies to the
  model's reply before parsing it: strip, and when the reply opens with a
  markdown code fence, delete every fence marker, strip trailing backticks
  and strip again.
 */
module Sanitizer {
  import opened PyStr

  const Fence: string := "```"

  /** Three backticks start at index `i`. */
  predicate FenceAt(s: string, i: int) {
    0 <= i && i + 3 <= |s| && s[i] == '`' && s[i + 1] == '`' && s[i + 2] == '`'
  }

  predicate FenceFree(s: string) {
    forall i :: 0 <= i < |s| ==> !FenceAt(s, i)
  }

  lemma FenceAtStart(s: string)
    ensures StartsWith(s, Fence) <==> FenceAt(s, 0)
  {
    if FenceAt(s, 0) { assert s[..3] == Fence; }
  }

  /** The four texts the pattern ```(?:json)?\n? can match. */
  predicate FenceToken(t: string) {
    t == "```" || t == "```json" || t == "```\n" || t == "```json\n"
  }

  /** The length of the match of ```(?:json)?\n? at the start of `s`, which
      opens with a fence: the tag `json` is taken when present, then one
      newline when present. */
  function FenceMatchLength(s: string): (n: nat)
    requires FenceAt(s, 0)
    ensures 3 <= n <= |s|
  {
    var tagged := |s| >= 7 && s[3] == 'j' && s[4] == 's' && s[5] == 'o' && s[6] == 'n';
    var afterTag := if tagged then 7 else 3;
    if afterTag < |s| && s[afterTag] == '\n' then afterTag + 1 else afterTag
  }

  /** What is deleted is one of the four texts the pattern can match. */
  lemma FenceMatchIsToken(s: string)
    requires FenceAt(s, 0)
    ensures FenceToken(s[..FenceMatchLength(s)])
  {
    var n := FenceMatchLength(s);
    assert s[..3] == Fence;
    if n >= 7 { assert s[..7] == s[..3] + "json"; }
    if n == 4 || n == 8 { assert s[..n] == s[..n - 1] + "\n"; }
  }

  /** Greedy matching: no token that opens `s` is longer than the match. */
  lemma FenceMatchIsLongest(s: string, t: string)
    requires FenceAt(s, 0)
    requires FenceToken(t) && StartsWith(s, t)
    ensures |t| <= FenceMatchLength(s)
  {
    assert s[..|t|] == t;
    if |t| == 8 {
      assert s[3] == t[3] && s[4] == t[4] && s[5] == t[5] && s[6] == t[6] && s[7] == t[7];
    } else if |t| == 7 {
      assert s[3] == t[3] && s[4] == t[4] && s[5] == t[5] && s[6] == t[6];
    } else if |t| == 4 {
      assert s[3] == t[3];
    }
  }

  /** `re.sub(r"```(?:json)?\n?", "", s)`: scans left to right, deleting each
      match and keeping every other character. */
  function RemoveFences(s: string): (r: string)
    ensures |r| <= |s|
    ensures r != [] && r[0] == '`' ==> s != [] && s[0] == '`'
    decreases |s|
  {
    if FenceAt(s, 0) then RemoveFences(s[FenceMatchLength(s)..])
    else if s == [] then []
    else [s[0]] + RemoveFences(s[1..])
  }

  /** The response text after the clean-up, ready for parsing. */
  function Sanitize(reply: string): (r: string)
    ensures Stripped(r)
  {
    var text := Strip(reply);
    if StartsWith(text, Fence) then
      var unfenced := RemoveFences(text);
      Strip(RStripChar(unfenced, '`'))
    else
      text
  }

  // ---------------------------------------------------------------------
  // Fence removal leaves no fence behind
  // ---------------------------------------------------------------------

  /** If the scan's output opens with two backticks, so did its input. */
  lemma {:induction false} RemoveFencesTwoBackticks(s: string)
    requires |RemoveFences(s)| >= 2 && RemoveFences(s)[0] == '`' && RemoveFences(s)[1] == '`'
    ensures |s| >= 2 && s[0] == '`' && s[1] == '`'
  {
    if !FenceAt(s, 0) {
      var rest := RemoveFences(s[1..]);
      assert RemoveFences(s) == [s[0]] + rest;
      assert rest[0] == '`';
    }
  }

  lemma ConsFenceFree(c: char, r: string)
    requires FenceFree(r)
    requires !(c == '`' && |r| >= 2 && r[0] == '`' && r[1] == '`')
    ensures FenceFree([c] + r)
  {
    var s := [c] + r;
    forall i | FenceAt(s, i) ensures false {
      if i > 0 { assert FenceAt(r, i - 1); }
    }
  }

  /** The output of the fence deletion never contains three backticks in a
      row: a backtick is kept only when it does not open a fence, and a kept
      backtick is never directly followed by a deleted match. */
  lemma {:induction false} RemoveFencesLeavesNoFence(s: string)
    ensures FenceFree(RemoveFences(s))
    decreases |s|
  {
    if FenceAt(s, 0) {
      RemoveFencesLeavesNoFence(s[FenceMatchLength(s)..]);
    } else if s != [] {
      var rest := RemoveFences(s[1..]);
      RemoveFencesLeavesNoFence(s[1..]);
      if |rest| >= 2 && rest[0] == '`' && rest[1] == '`' {
        RemoveFencesTwoBackticks(s[1..]);
      }
      ConsFenceFree(s[0], rest);
    }
  }

  /** Text without any fence passes the scan unchanged. */
  lemma {:induction false} RemoveFencesOfFenceFree(s: string)
    requires FenceFree(s)
    ensures RemoveFences(s) == s
    decreases |s|
  {
    if s != [] {
      assert FenceFree(s[1..]) by {
        forall i | FenceAt(s[1..], i) ensures false { assert FenceAt(s, i + 1); }
      }
      RemoveFencesOfFenceFree(s[1..]);
    }
  }

  lemma FenceFreeSuffix(s: string, k: nat)
    requires FenceFree(s) && k <= |s|
    ensures FenceFree(s[k..])
  {
    forall i | FenceAt(s[k..], i) ensures false { assert FenceAt(s, i + k); }
  }

  lemma FenceFreePrefix(s: string, k: nat)
    requires FenceFree(s) && k <= |s|
    ensures FenceFree(s[..k])
  {
    forall i | FenceAt(s[..k], i) ensures false { assert FenceAt(s, i); }
  }

  lemma FenceFreeStrip(s: string)
    requires FenceFree(s)
    ensures FenceFree(Strip(s))
  {
    var t := StripLeft(s);
    FenceFreeSuffix(s, |s| - |t|);
    FenceFreePrefix(t, |StripRight(t)|);
  }

  // ---------------------------------------------------------------------
  // Properties of the clean-up
  // ---------------------------------------------------------------------

  /** A reply that does not open with a fence once stripped is only
      stripped. */
  lemma SanitizeUnfenced(reply: string)
    requires !StartsWith(Strip(reply), Fence)
    ensures Sanitize(reply) == Strip(reply)
  {
  }

  /** A reply that opens with a fence comes out with no fence left in it. */
  lemma SanitizeFencedIsFenceFree(reply: string)
    requires StartsWith(Strip(reply), Fence)
    ensures FenceFree(Sanitize(reply))
  {
    var unfenced := RemoveFences(Strip(reply));
    RemoveFencesLeavesNoFence(Strip(reply));
    var trimmed := RStripChar(unfenced, '`');
    FenceFreePrefix(unfenced, |trimmed|);
    FenceFreeStrip(trimmed);
  }

  /** Cleaning an already cleaned reply changes nothing. */
  lemma SanitizeIdempotent(reply: string)
    ensures Sanitize(Sanitize(reply)) == Sanitize(reply)
  {
    var r := Sanitize(reply);
    if StartsWith(Strip(reply), Fence) {
      SanitizeFencedIsFenceFree(reply);
      FenceAtStart(r);
    }
    assert Strip(r) == r;
  }

  /** One step of the scan over a character that does not open a fence. */
  lemma RemoveFencesKeeps(s: string)
    requires s != [] && !FenceAt(s, 0)
    ensures RemoveFences(s) == [s[0]] + RemoveFences(s[1..])
  {
  }

  /** A prefix without backticks is copied unchanged. */
  lemma {:induction false} RemoveFencesCopies(s: string, k: nat)
    requires k <= |s|
    requires forall i :: 0 <= i < k ==> s[i] != '`'
    ensures RemoveFences(s) == s[..k] + RemoveFences(s[k..])
  {
    if k > 0 {
      RemoveFencesCopies(s, k - 1);
      var t := s[k - 1..];
      RemoveFencesKeeps(t);
      assert t[1..] == s[k..];
      var x := RemoveFences(s[k..]);
      calc {
        RemoveFences(s);
        s[..k - 1] + RemoveFences(t);
        s[..k - 1] + ([s[k - 1]] + x);
        { assert s[..k - 1] + [s[k - 1]] == s[..k]; }
        s[..k] + x;
      }
    }
  }

  /** The scan deletes one match and keeps everything after it: a
      backtick-free prefix, then a match, then the rest. */
  lemma RemoveFencesSplice(a: string, t: string, b: string)
    requires forall i :: 0 <= i < |a| ==> a[i] != '`'
    requires FenceToken(t) && FenceAt(t + b, 0) && FenceMatchLength(t + b) == |t|
    ensures RemoveFences(a + t + b) == a + RemoveFences(b)
  {
    var s := a + t + b;
    RemoveFencesCopies(s, |a|);
    assert s[..|a|] == a;
    assert s[|a|..] == t + b;
    assert (t + b)[|t|..] == b;
  }

  /** A JSON body wrapped in a ```json fence comes out bare: this holds for
      every non-empty body without backticks or surrounding whitespace. */
  lemma SanitizeJsonFence(body: string)
    requires body != [] && Stripped(body)
    requires forall i :: 0 <= i < |body| ==> body[i] != '`'
    ensures Sanitize("```json\n" + body + "\n```") == body
  {
    var reply := "```json\n" + body + "\n```";
    assert FenceAt(reply, 0);
    assert FenceMatchLength(reply) == 8;
    var rest := reply[8..];
    var unfenced := body + "\n";
    assert rest[..|unfenced|] == unfenced && rest[|unfenced|..] == Fence;
    RemoveFencesCopies(rest, |unfenced|);
    assert FenceMatchLength(Fence) == 3;
    assert RemoveFences(reply) == unfenced;
    assert Stripped(reply);
    SanitizeFencedNewline(reply, body);
  }

  /** The same for an untagged fence: "```\n" + body + "\n```" comes out
      as the bare body. */
  lemma SanitizePlainFence(body: string)
    requires body != [] && Stripped(body)
    requires forall i :: 0 <= i < |body| ==> body[i] != '`'
    ensures Sanitize("```\n" + body + "\n```") == body
  {
    var reply := "```\n" + body + "\n```";
    assert FenceAt(reply, 0);
    assert FenceMatchLength(reply) == 4;
    var rest := reply[4..];
    var unfenced := body + "\n";
    assert rest[..|unfenced|] == unfenced && rest[|unfenced|..] == Fence;
    RemoveFencesCopies(rest, |unfenced|);
    assert FenceMatchLength(Fence) == 3;
    assert RemoveFences(reply) == unfenced;
    assert Stripped(reply);
    SanitizeFencedNewline(reply, body);
  }

  /** The fenced branch when fence deletion leaves a stripped text and one
      trailing newline. */
  lemma SanitizeFencedNewline(reply: string, bare: string)
    requires Stripped(reply) && FenceAt(reply, 0)
    requires RemoveFences(reply) == bare + "\n"
    requires bare != [] && Stripped(bare)
    ensures Sanitize(reply) == bare
  {
    FenceAtStart(reply);
    var unfenced := bare + "\n";
    assert RStripChar(unfenced, '`') == unfenced;
    assert StripLeft(unfenced) == unfenced;
    assert unfenced[..|bare|] == bare;
  }

  /** The worked example: a fenced one-field object is reduced to the object. */
  lemma SanitizeExample(reply: string)
    requires reply == "```json\n{\"a\":1}\n```"
    ensures Sanitize(reply) == "{\"a\":1}"
  {
    var body := "{\"a\":1}";
    assert reply == "```json\n" + body + "\n```";
    SanitizeJsonFence(body);
  }
}
