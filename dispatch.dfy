/**
 * The two message handlers that touch the statistics: `translate_text` for text
 * messages and `echo_unsupported` for media. The Telegram transport is replaced by
 * a returned reply, the translator by a function parameter whose `None` stands for
 * an exception, and the clock by the `today` parameter.
 */
module Dispatch {
  import opened Wrappers
  import opened Direction
  import opened Mention
  import opened Snapshots
  import StatsStore
  import Dates

  /** The parts of a Telegram message the handlers read. */
  datatype Message = Message(sender: Sender, chatType: string, text: Option<string>, contentType: string)

  /** `message.chat.type in ["group", "supergroup"]`. */
  predicate InGroup(chatType: string) {
    chatType == "group" || chatType == "supergroup"
  }

  /** `TYPE_RU`: the Russian plural for each media kind. */
  const TypeRu: map<string, string> := map[
    "sticker" := "стикеры",
    "photo" := "фотографии",
    "video" := "видео",
    "document" := "документы",
    "audio" := "аудио",
    "voice" := "голосовые сообщения",
    "animation" := "анимации",
    "video_note" := "видеосообщения",
    "emoji" := "эмодзи"]

  /** The content types `echo_unsupported` is registered for. */
  const MediaKinds: set<string> := {"photo", "video", "document", "audio", "voice", "sticker", "animation", "video_note"}

  const EmojiNotice := "Я пока не умею обрабатывать эмодзи."
  const FailureNotice := "Ошибка перевода. Попробуйте чуть позже."
  const UnknownKind := "этот тип контента"

  /** `f"Я пока не умею обрабатывать {TYPE_RU.get(ct, 'этот тип контента')}."`. */
  function UnsupportedNotice(contentType: string): string {
    "Я пока не умею обрабатывать " + (if contentType in TypeRu then TypeRu[contentType] else UnknownKind) + "."
  }

  /** The statistics after a handler ran, and the reply it sent (`None`: nothing sent). */
  datatype Outcome = Outcome(stats: Snapshot, reply: Option<string>)

  /**
   * `translate_text` once the decision is known: `p` describes the sender, `day` is
   * today's bucket key, and `translate(text, target)` is the translator's answer.
   * A `KeyError` in `record_event` ends the handler before any reply.
   */
  function HandleText(s: Snapshot, d: Decision, p: Profile, day: string,
                      translate: (string, string) -> Option<string>): Outcome
  {
    match d
    case NoAction => Outcome(s, None)
    case Emoji =>
      var s1 := RecordEvent(s, p, EmojiKind, day);
      Outcome(s1, if BucketUsable(s, day) then Some(EmojiNotice) else None)
    case Translate(text, route) =>
      var s1 := RecordEvent(s, p, TextKind, day);
      if !BucketUsable(s, day) then Outcome(s1, None)
      else match translate(text, route.target)
        case Some(translated) => Outcome(RecordTranslation(s1, route.direction), Some(translated))
        case None => Outcome(s1, Some(FailureNotice))
  }

  /** `echo_unsupported`: the message is always counted under its content type, then declined. */
  function HandleMedia(s: Snapshot, p: Profile, contentType: string, day: string): Outcome {
    var s1 := RecordEvent(s, p, contentType, day);
    Outcome(s1, if BucketUsable(s, day) then Some(UnsupportedNotice(contentType)) else None)
  }

  /** `translate_text(message)` on the UTC day `today`, with the bot's username and `\w` as parameters. */
  method TranslateText(stats: StatsStore.StatsManager, msg: Message, botUsername: Option<string>,
                       isWordChar: char -> bool, today: Dates.Date,
                       translate: (string, string) -> Option<string>)
    returns (reply: Option<string>)
    requires Dates.IsClockDate(today)
    modifies stats
    ensures Outcome(stats.stats, reply)
            == HandleText(old(stats.stats), Decide(msg.text, InGroup(msg.chatType), botUsername, isWordChar),
                          ProfileOf(msg.sender), Dates.FormatDate(today), translate)
  {
    var d := ResolveText(msg.text, InGroup(msg.chatType), botUsername, isWordChar);
    reply := Respond(stats, d, ProfileOf(msg.sender), Dates.FormatDate(today), translate);
  }

  /**
   * The rest of `translate_text` once the text is resolved: count the message (through
   * `record_event`, with the sender's profile `p` and the day key already computed),
   * then reply, or translate and count the translation.
   */
  method Respond(stats: StatsStore.StatsManager, d: Decision, p: Profile, day: string,
                 translate: (string, string) -> Option<string>)
    returns (reply: Option<string>)
    modifies stats
    ensures Outcome(stats.stats, reply) == HandleText(old(stats.stats), d, p, day, translate)
  {
    if d == NoAction {
      return None;
    }
    if d == Emoji {
      var ok := stats.Record(p, EmojiKind, day);
      if !ok {
        return None;
      }
      return Some(EmojiNotice);
    }
    var ok := stats.Record(p, TextKind, day);
    if !ok {
      return None;
    }
    var translated := translate(d.text, d.route.target);
    if translated.None? {
      return Some(FailureNotice);
    }
    stats.RecordTranslation(d.route.direction);
    return translated;
  }

  /** `echo_unsupported(message)` on the UTC day `today`. */
  method EchoUnsupported(stats: StatsStore.StatsManager, msg: Message, today: Dates.Date) returns (reply: Option<string>)
    requires Dates.IsClockDate(today)
    modifies stats
    ensures Outcome(stats.stats, reply)
            == HandleMedia(old(stats.stats), ProfileOf(msg.sender), msg.contentType, Dates.FormatDate(today))
  {
    var ok := stats.RecordEvent(msg.sender, msg.contentType, today);
    if !ok {
      return None;
    }
    return Some(UnsupportedNotice(msg.contentType));
  }
}

module DispatchFacts {
  import opened Wrappers
  import opened Direction
  import opened Mention
  import opened Snapshots
  import opened Dispatch

  /**
   * What one text message does to the counters: nothing when it is ignored; otherwise one
   * more message, of kind "emoji" or "text". Only a translated text moves a translation
   * counter, and then only its own direction's.
   */
  lemma HandleTextCounts(s: Snapshot, d: Decision, p: Profile, day: string,
                         translate: (string, string) -> Option<string>)
    ensures var out := HandleText(s, d, p, day, translate);
            && (d == NoAction ==> out == Outcome(s, None))
            && (d != NoAction ==> out.stats.messagesTotal == s.messagesTotal + 1)
            && (d == Emoji ==>
                  && Get(out.stats.byType, EmojiKind) == Get(s.byType, EmojiKind) + 1
                  && out.stats.translations == s.translations)
            && (d.Translate? ==>
                  && Get(out.stats.byType, TextKind) == Get(s.byType, TextKind) + 1
                  && (forall k :: k != d.route.direction ==> Get(out.stats.translations, k) == Get(s.translations, k))
                  && Get(out.stats.translations, d.route.direction)
                     == Get(s.translations, d.route.direction)
                        + (if BucketUsable(s, day) && translate(d.text, d.route.target).Some? then 1 else 0))
  {
    if d != NoAction {
      var kind := if d == Emoji then EmojiKind else TextKind;
      RecordEventCounters(s, p, kind, day);
      if d.Translate? {
        RecordTranslationCounts(RecordEvent(s, p, kind, day), d.route.direction);
      }
    }
  }

  /**
   * The reply: none for an ignored message or a broken bucket; the emoji notice for emoji;
   * for text, the translation when the translator answers and the failure notice when it
   * raises. A translation is counted exactly when it is sent.
   */
  lemma HandleTextReply(s: Snapshot, d: Decision, p: Profile, day: string,
                        translate: (string, string) -> Option<string>)
    ensures var out := HandleText(s, d, p, day, translate);
            && (out.reply.Some? <==> d != NoAction && BucketUsable(s, day))
            && (d == Emoji && BucketUsable(s, day) ==> out.reply == Some(EmojiNotice))
            && (d.Translate? && BucketUsable(s, day) ==>
                  out.reply == Some(translate(d.text, d.route.target).GetOr(FailureNotice)))
            && (out.stats.translations != s.translations
                <==> d.Translate? && BucketUsable(s, day) && translate(d.text, d.route.target).Some?)
  {
    HandleTextCounts(s, d, p, day, translate);
    if d.Translate? && BucketUsable(s, day) && translate(d.text, d.route.target).Some? {
      var out := HandleText(s, d, p, day, translate);
      assert Get(out.stats.translations, d.route.direction) != Get(s.translations, d.route.direction);
    }
  }

  /** Media is counted under its content type whatever the chat, and declined in Russian. */
  lemma HandleMediaSpec(s: Snapshot, p: Profile, contentType: string, day: string)
    ensures var out := HandleMedia(s, p, contentType, day);
            && out.stats.messagesTotal == s.messagesTotal + 1
            && Get(out.stats.byType, contentType) == Get(s.byType, contentType) + 1
            && out.stats.translations == s.translations
            && (out.reply.Some? <==> BucketUsable(s, day))
            && (BucketUsable(s, day) && contentType in MediaKinds ==>
                  out.reply == Some("Я пока не умею обрабатывать " + TypeRu[contentType] + "."))
  {
    RecordEventCounters(s, p, contentType, day);
  }

  /** Every kind a handler records is among the kinds `by_type` is seeded with from `TYPE_RU`. */
  lemma HandledKindsSeeded()
    ensures EmojiKind in SeededKinds(TypeRu.Keys) && TextKind in SeededKinds(TypeRu.Keys)
    ensures MediaKinds <= SeededKinds(TypeRu.Keys)
  {
    assert EmojiKind in TypeRu.Keys;
    assert MediaKinds <= TypeRu.Keys;
  }

  /** So once the store is seeded with `TYPE_RU`, a text message never adds a `by_type` key... */
  lemma HandleTextKeepsKinds(s: Snapshot, d: Decision, p: Profile, day: string,
                             translate: (string, string) -> Option<string>)
    requires SeededKinds(TypeRu.Keys) <= s.byType.Keys
    ensures HandleText(s, d, p, day, translate).stats.byType.Keys == s.byType.Keys
  {
    HandledKindsSeeded();
    if d != NoAction {
      var kind := if d == Emoji then EmojiKind else TextKind;
      RecordEventCounters(s, p, kind, day);
    }
  }

  /** ...and neither does a media message of a registered type. */
  lemma HandleMediaKeepsKinds(s: Snapshot, p: Profile, contentType: string, day: string)
    requires SeededKinds(TypeRu.Keys) <= s.byType.Keys
    requires contentType in MediaKinds
    ensures HandleMedia(s, p, contentType, day).stats.byType.Keys == s.byType.Keys
  {
    HandledKindsSeeded();
    RecordEventCounters(s, p, contentType, day);
  }
}
