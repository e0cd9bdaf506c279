/**
 * How `translate_text` turns an incoming text message into a decision: trim it,
 * in a group chat act only when `@<bot username>` occurs (ignoring case), cut every
 * such mention out, trim again, then tell "only non-word characters" (counted as
 * `emoji`, never translated) from text that is routed to the translator.
 */
module Mention {
  import opened Wrappers
  import opened Text
  import opened Direction

  /** `f"@{BOT_USERNAME}"`, where `BOT_USERNAME = (me.username or "").lower()`. */
  function MentionOf(botUsername: Option<string>): (m: string)
    ensures |m| >= 1 && m[0] == '@'
    ensures Lower(m) == m
  {
    var name := Lower(botUsername.GetOr(""));
    assert forall i :: 0 <= i < |name| ==> LowerChar(name[i]) == name[i];
    "@" + name
  }

  /**
   * The `while mention in lower` loop as a function: while the lowered text contains the
   * mention, cut the characters at its first occurrence out of the original text.
   * The result is free of the mention, never longer, and untouched when there was
   * nothing to cut.
   */
  function StripMentions(text: string, mention: string): (r: string)
    requires |mention| > 0
    ensures !Occurs(Lower(r), mention)
    ensures |r| <= |text|
    ensures !Occurs(Lower(text), mention) ==> r == text
    decreases |text|
  {
    match Find(Lower(text), mention)
    case None => text
    case Some(i) => StripMentions(text[..i] + text[i + |mention|..], mention)
  }

  /** Delete the window of `m` characters at each position of `cuts` in turn; a window past the end is skipped. */
  function CutAll(t: string, cuts: seq<nat>, m: nat): string
    decreases |cuts|
  {
    if cuts == [] then t
    else
      var last := cuts[|cuts| - 1];
      var prev := CutAll(t, cuts[..|cuts| - 1], m);
      if last + m <= |prev| then prev[..last] + prev[last + m..] else prev
  }

  /** The loop's cuts, recorded: `StripMentions` deletes windows of the mention's length. */
  lemma StripMentionsCuts(text: string, mention: string) returns (cuts: seq<nat>)
    requires |mention| > 0
    ensures StripMentions(text, mention) == CutAll(text, cuts, |mention|)
  {
    var r := text;
    var lower := Lower(r);
    cuts := [];
    while Occurs(lower, mention)
      invariant lower == Lower(r)
      invariant StripMentions(r, mention) == StripMentions(text, mention)
      invariant r == CutAll(text, cuts, |mention|)
      decreases |r|
    {
      var idx := Find(lower, mention).value;
      CutAllSnoc(text, cuts, idx, |mention|);
      r := r[..idx] + r[idx + |mention|..];
      cuts := cuts + [idx];
      lower := Lower(r);
    }
  }

  lemma CutAllSnoc(t: string, cuts: seq<nat>, i: nat, m: nat)
    requires i + m <= |CutAll(t, cuts, m)|
    ensures var prev := CutAll(t, cuts, m);
            CutAll(t, cuts + [i], m) == prev[..i] + prev[i + m..]
  {
    assert (cuts + [i])[..|cuts|] == cuts;
  }

  /** Deleting windows keeps the rest of the text in order and removes a whole number of windows. */
  lemma {:induction false} CutAllKeepsRest(t: string, cuts: seq<nat>, m: nat)
    requires m > 0
    ensures var r := CutAll(t, cuts, m);
            IsSubsequence(r, t) && |r| <= |t| && MultipleOf(|t| - |r|, m)
    decreases |cuts|
  {
    if cuts == [] {
      SubsequenceRefl(t);
    } else {
      var last := cuts[|cuts| - 1];
      var prev := CutAll(t, cuts[..|cuts| - 1], m);
      CutAllKeepsRest(t, cuts[..|cuts| - 1], m);
      if last + m <= |prev| {
        CutIsSubsequence(prev, last, last + m);
        SubsequenceTrans(prev[..last] + prev[last + m..], prev, t);
        assert |t| - |CutAll(t, cuts, m)| == (|t| - |prev|) + m;
      }
    }
  }

  /** A subsequence as long as the whole is the whole. */
  lemma {:induction false} SubsequenceSameLength(a: string, b: string)
    requires IsSubsequence(a, b) && |a| == |b|
    ensures a == b
    decreases |b|
  {
    if a != [] {
      if IsSubsequence(a, b[1..]) {
        SubsequenceShorter(a, b[1..]);
      } else {
        SubsequenceSameLength(a[1..], b[1..]);
      }
    }
  }

  lemma {:induction false} SubsequenceShorter(a: string, b: string)
    requires IsSubsequence(a, b)
    ensures |a| <= |b|
    decreases |b|
  {
    if a != [] {
      if IsSubsequence(a, b[1..]) {
        SubsequenceShorter(a, b[1..]);
      } else {
        SubsequenceShorter(a[1..], b[1..]);
      }
    }
  }

  /**
   * What the cutting keeps and removes: the result is the text with whole mention-length
   * windows deleted and the rest kept in order, at least one mention shorter when a
   * mention occurred.
   */
  lemma StripMentionsKeepsRest(text: string, mention: string)
    requires |mention| > 0
    ensures var r := StripMentions(text, mention);
            && IsSubsequence(r, text)
            && MultipleOf(|text| - |r|, |mention|)
            && (Occurs(Lower(text), mention) ==> |r| <= |text| - |mention|)
  {
    var cuts := StripMentionsCuts(text, mention);
    var r := CutAll(text, cuts, |mention|);
    CutAllKeepsRest(text, cuts, |mention|);
    if Occurs(Lower(text), mention) {
      assert r != text;
      WindowsRemoved(text, r, |mention|);
    }
  }

  /** A subsequence shorter by whole windows, and different from the text, is at least one window shorter. */
  lemma WindowsRemoved(text: string, r: string, m: int)
    requires m > 0 && IsSubsequence(r, text) && |r| <= |text| && MultipleOf(|text| - |r|, m) && r != text
    ensures |r| <= |text| - m
  {
    if |r| == |text| {
      SubsequenceSameLength(r, text);
    }
  }

  /** `k` characters make a whole number of windows of `m` characters each: `k % m == 0` for `k >= 0`. */
  predicate MultipleOf(k: int, m: int)
    requires m > 0
    decreases k
  {
    k == 0 || (k >= m && MultipleOf(k - m, m))
  }

  /** `ONLY_EMOJI_RE.match(t)` (`^\W+$`) on a trimmed text: non-empty and without a word character. */
  predicate OnlyNonWord(t: string, isWordChar: char -> bool) {
    |t| > 0 && forall i :: 0 <= i < |t| ==> !isWordChar(t[i])
  }

  /**
   * The text left to work on, or `None` where `translate_text` returns without doing
   * anything: the message is empty after trimming, a group message does not mention
   * the bot, or nothing but the mention was written.
   */
  function EffectiveText(raw: Option<string>, inGroup: bool, botUsername: Option<string>): (r: Option<string>)
  {
    var text := Trim(raw.GetOr(""));
    if text == [] then None
    else if !inGroup then Some(text)
    else
      var mention := MentionOf(botUsername);
      if !Occurs(Lower(text), mention) then None
      else
        var stripped := Trim(StripMentions(text, mention));
        if stripped == [] then None else Some(stripped)
  }

  /** What `translate_text` does with a text message. */
  datatype Decision =
    | NoAction                                  // return without recording or replying
    | Emoji                                     // record kind "emoji", reply that emoji are unsupported
    | Translate(text: string, route: Route)     // record kind "text", translate `text` along `route`

  function Decide(raw: Option<string>, inGroup: bool, botUsername: Option<string>, isWordChar: char -> bool): Decision
  {
    match EffectiveText(raw, inGroup, botUsername)
    case None => NoAction
    case Some(t) => if OnlyNonWord(t, isWordChar) then Emoji else Translate(t, Classify(t))
  }

  /** The steps of `translate_text` up to the recording of the message. */
  method ResolveText(raw: Option<string>, inGroup: bool, botUsername: Option<string>, isWordChar: char -> bool)
    returns (d: Decision)
    ensures d == Decide(raw, inGroup, botUsername, isWordChar)
  {
    var text := Trim(raw.GetOr(""));
    if text == [] {
      return NoAction;
    }
    if inGroup {
      var mention := MentionOf(botUsername);
      if !Occurs(Lower(text), mention) {
        return NoAction;
      }
      text := CutMentions(text, mention);
      text := Trim(text);
      if text == [] {
        return NoAction;
      }
    }
    if OnlyNonWord(text, isWordChar) {
      return Emoji;
    }
    return Translate(text, Classify(text));
  }

  /** The `while mention in lower` loop: cut the first occurrence out of `text`, lower again, repeat. */
  method CutMentions(text: string, mention: string) returns (r: string)
    requires |mention| > 0
    ensures r == StripMentions(text, mention)
  {
    r := text;
    var lower := Lower(r);
    while Occurs(lower, mention)
      invariant lower == Lower(r)
      invariant StripMentions(r, mention) == StripMentions(text, mention)
      decreases |r|
    {
      var idx := Find(lower, mention).value;
      r := r[..idx] + r[idx + |mention|..];
      lower := Lower(r);
    }
  }

  /**
   * Whatever text survives is non-empty, already trimmed, and in a group free of any
   * case-insensitive mention of the bot.
   */
  lemma EffectiveTextClean(raw: Option<string>, inGroup: bool, botUsername: Option<string>)
    ensures var r := EffectiveText(raw, inGroup, botUsername);
            r.Some? ==>
              && r.value != []
              && Trim(r.value) == r.value
              && (inGroup ==> !Occurs(Lower(r.value), MentionOf(botUsername)))
  {
    var text := Trim(raw.GetOr(""));
    TrimTrimmed(raw.GetOr(""));
    if text != [] && inGroup {
      var mention := MentionOf(botUsername);
      var stripped := StripMentions(text, mention);
      TrimTrimmed(stripped);
      TrimKeepsNoOccurrence(stripped, mention);
      assert !Occurs(Lower(Trim(stripped)), mention);
      if Occurs(Lower(text), mention) && Trim(stripped) != [] {
        assert EffectiveText(raw, inGroup, botUsername) == Some(Trim(stripped));
      }
    }
  }

  /** In a group, a message that does not mention the bot is ignored: nothing recorded, nothing sent. */
  lemma GroupWithoutMentionIgnored(raw: Option<string>, botUsername: Option<string>, isWordChar: char -> bool)
    requires !Occurs(Lower(Trim(raw.GetOr(""))), MentionOf(botUsername))
    ensures Decide(raw, true, botUsername, isWordChar) == NoAction
  {
  }

  /** A message that is blank after trimming is ignored in every chat. */
  lemma BlankIgnored(raw: Option<string>, inGroup: bool, botUsername: Option<string>, isWordChar: char -> bool)
    requires forall i :: 0 <= i < |raw.GetOr("")| ==> IsSpace(raw.GetOr("")[i])
    ensures Decide(raw, inGroup, botUsername, isWordChar) == NoAction
  {
    TrimEmptyIff(raw.GetOr(""));
  }

  /** In a private chat the whole trimmed message is the text, mentions included. */
  lemma PrivateChatKeepsText(raw: Option<string>, botUsername: Option<string>)
    requires Trim(raw.GetOr("")) != []
    ensures EffectiveText(raw, false, botUsername) == Some(Trim(raw.GetOr("")))
  {
  }

  /**
   * The three outcomes: text made only of non-word characters is recorded as emoji and
   * never classified; any other surviving text is translated, along the direction its
   * letters give, with the mention already gone.
   */
  lemma DecideOutcomes(raw: Option<string>, inGroup: bool, botUsername: Option<string>, isWordChar: char -> bool)
    ensures var e := EffectiveText(raw, inGroup, botUsername);
            var d := Decide(raw, inGroup, botUsername, isWordChar);
            && (d == NoAction <==> e.None?)
            && (d == Emoji <==> e.Some? && OnlyNonWord(e.value, isWordChar))
            && (d.Translate? ==>
                  && e == Some(d.text) && !OnlyNonWord(d.text, isWordChar)
                  && d.route == Classify(d.text)
                  && d.text != [] && Trim(d.text) == d.text
                  && (inGroup ==> !Occurs(Lower(d.text), MentionOf(botUsername))))
  {
    EffectiveTextClean(raw, inGroup, botUsername);
  }
}
