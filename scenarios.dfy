/**
 * Worked examples of `translate_text`'s decision on concrete messages, with `\w`
 * taken as ASCII letters, digits and the underscore.
 */
module Scenarios {
  import opened Wrappers
  import opened Text
  import opened Direction
  import opened Mention

  function AsciiWord(c: char): bool {
    'a' <= c <= 'z' || 'A' <= c <= 'Z' || '0' <= c <= '9' || c == '_'
  }

  lemma PaddedMentionTrimmed()
    ensures Trim(" @Bot hello") == "@Bot hello"
  {
    assert " @Bot hello"[1..] == "@Bot hello";
    assert TrimStart("@Bot hello") == "@Bot hello";
  }

  lemma MentionOfBot()
    ensures MentionOf(Some("bot")) == "@bot"
  {
    assert Lower("bot") == "bot";
  }

  lemma MentionFoundFirst()
    ensures Find(Lower("@Bot hello"), "@bot") == Some(0)
  {
    assert Lower("@Bot hello") == "@bot hello";
    assert OccursAt("@bot hello", "@bot", 0);
  }

  /** A text without an `@` holds no mention. */
  lemma NoAtNoMention(s: string, mention: string)
    requires |mention| > 0 && mention[0] == '@'
    requires forall i :: 0 <= i < |s| ==> LowerChar(s[i]) != '@'
    ensures !Occurs(Lower(s), mention)
  {
    forall i | 0 <= i <= |s| ensures !OccursAt(Lower(s), mention, i) {
    }
  }

  lemma NoMentionLeft()
    ensures !Occurs(Lower(" hello"), "@bot")
  {
    NoAtNoMention(" hello", "@bot");
  }

  lemma MentionCutOnce()
    ensures StripMentions("@Bot hello", "@bot") == " hello"
  {
    MentionFoundFirst();
    NoMentionLeft();
    assert "@Bot hello"[..0] + "@Bot hello"[4..] == " hello";
  }

  lemma LeadingSpaceTrimmed()
    ensures Trim(" hello") == "hello"
  {
    assert " hello"[1..] == "hello";
    assert TrimStart("hello") == "hello";
  }

  lemma LatinGoesToRussian()
    ensures Classify("hello") == Route("ru", EnToRu)
  {
    SearchCyrillicIff("hello");
    assert SearchLatin("hello");
  }

  /** In a group, " @Bot hello" addressed to the bot "bot" is translated as "hello", from English to Russian. */
  lemma GroupMentionTranslated()
    ensures Decide(Some(" @Bot hello"), true, Some("bot"), AsciiWord) == Translate("hello", Route("ru", EnToRu))
  {
    PaddedMentionTrimmed();
    MentionOfBot();
    MentionFoundFirst();
    MentionCutOnce();
    LeadingSpaceTrimmed();
    LatinGoesToRussian();
    assert AsciiWord("hello"[0]);
    assert OccursAt(Lower("@Bot hello"), "@bot", 0);
  }

  /** The same text without the mention is ignored in a group. */
  lemma GroupWithoutMention()
    ensures Decide(Some("hello"), true, Some("bot"), AsciiWord) == NoAction
  {
    HelloTrimmed();
    MentionOfBot();
    NoAtNoMention("hello", "@bot");
  }

  lemma HelloTrimmed()
    ensures Trim("hello") == "hello"
  {
    assert TrimStart("hello") == "hello";
  }

  lemma PunctuationMentionCut()
    ensures StripMentions("@bot !!", "@bot") == " !!"
  {
    var text := "@bot !!";
    assert Lower(text) == text;
    assert OccursAt(text, "@bot", 0);
    assert Find(Lower(text), "@bot") == Some(0);
    assert text[..0] + text[4..] == " !!";
    NoAtNoMention(" !!", "@bot");
  }

  lemma PunctuationTrimmed()
    ensures Trim("@bot !!") == "@bot !!"
    ensures Trim(" !!") == "!!"
  {
    MentionBangsTrimmed();
    BangsTrimmed();
  }

  lemma MentionBangsTrimmed()
    ensures Trim("@bot !!") == "@bot !!"
  {
    var s := "@bot !!";
    assert s[0] == '@' && s[|s| - 1] == '!';
    TrimUnpadded(s);
  }

  lemma BangsTrimmed()
    ensures Trim(" !!") == "!!"
  {
    var s := " !!";
    assert s[0] == ' ' && s[1..] == "!!";
    assert "!!"[0] == '!' && "!!"[1] == '!';
    assert TrimStart("!!") == "!!";
    assert TrimStart(s) == "!!";
  }

  lemma PunctuationMentionFound()
    ensures Occurs(Lower("@bot !!"), "@bot")
  {
    assert Lower("@bot !!") == "@bot !!";
    assert OccursAt("@bot !!", "@bot", 0);
  }

  lemma NoWordInBangs()
    ensures OnlyNonWord("!!", AsciiWord)
  {
    forall i | 0 <= i < |"!!"| ensures !AsciiWord("!!"[i]) {
      assert "!!"[i] == '!';
    }
  }

  lemma PunctuationLeft()
    ensures EffectiveText(Some("@bot !!"), true, Some("bot")) == Some("!!")
  {
    PunctuationTrimmed();
    MentionOfBot();
    PunctuationMentionCut();
    PunctuationMentionFound();
  }

  /** In a group, a mention followed only by punctuation counts as emoji and is not translated. */
  lemma GroupPunctuationIsEmoji()
    ensures Decide(Some("@bot !!"), true, Some("bot"), AsciiWord) == Emoji
  {
    PunctuationLeft();
    NoWordInBangs();
  }
}
