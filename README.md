# tg-translate-bot — a Dafny model of its message handling and usage statistics

tg-translate-bot is a Telegram bot that translates every text message between Russian
and English. In a group it answers a text message only when its `@username` is mentioned.
It declines media, in every chat and without a mention, and emoji. It keeps usage statistics in a JSON file, which hold:

- a message counter;
- counters per content kind and per translation direction;
- per-user message counts, handles and display names;
- one bucket per UTC day of the users seen that day.

This project models, in Dafny:

- **`StatsManager`** as a class whose `stats` field is the statistics dictionary. Its
  methods do what the Python methods do, one step at a time:
  - the constructor and `load` (defaults, a shallow overwrite with what the file held,
    then a backfill of missing counters);
  - `_ensure_defaults`;
  - `record_event`, including the `KeyError` raised by a day bucket without a `"users"` map;
  - `record_translation`;
  - `unique_users_in_range`, with its loop over the day buckets.

  Each method states its new state as a function of the old one. The functions
  (`Snapshots.RecordEvent`, `Snapshots.WithDefaults`, …) carry the lemmas: counter
  bookkeeping, key coverage, idempotence, window bounds and monotonicity. They also
  carry invariants kept by every operation:
  - the message total equals the sum of the per-kind counters;
  - every user in a day bucket is a known user with at least as many messages.
- **`pretty_name`** and the display name that `record_event` stores.
- **The day keys**: `strftime("%Y-%m-%d")` and `strptime(…, "%Y-%m-%d")`, following
  CPython's own pattern for those directives. The round trip shows that every bucket
  key written today is read back as today.
- **The direction classifier**: the if/elif/else over the character classes `[А-Яа-яЁё]`
  and `[A-Za-z]`.
- **The decision part of `translate_text`**:
  1. strip the text;
  2. in a group, require a case-insensitive `@botname`;
  3. cut every occurrence with the `while mention in lower` loop, then strip again;
  4. treat `^\W+$` as emoji;
  5. otherwise translate along the classified direction.

  The rest of the handler is modelled too: counting the message and the translation,
  and choosing the reply. `echo_unsupported` is modelled as well.

Python's `str.strip()` is modelled over its full whitespace set. `str.lower()` is
modelled for the case mappings that keep the length and can produce ASCII letters, which
are `A`–`Z` and the Kelvin sign. Substring search is `in` / `str.find`.

Outside influences become parameters:

- the current UTC date, `today`;
- the bot's username;
- the `\w` character class, `isWordChar`;
- the translator, a function that returns `None` where the call raises;
- the parsed contents of `stats.json`, `stored`.

Modules:

| file | module | models |
|---|---|---|
| wrappers.dfy | Wrappers | `Option` |
| text.dfy | Text | `strip`, `lower`, `in`, `find` |
| dates.dfy | Dates | `%Y-%m-%d` formatting and parsing, day numbers |
| direction.dfy | Direction | the direction classifier |
| mention.dfy | Mention | the decision part of `translate_text` |
| snapshot.dfy | Snapshots | the statistics as a value, and every operation on it as a function |
| stats_manager.dfy | StatsStore | the `StatsManager` class |
| dispatch.dfy | Dispatch, DispatchFacts | `translate_text` and `echo_unsupported` |
| scenarios.dfy | Scenarios | worked examples of the decision |

## Model

| member | source | states |
|---|---|---|
| StatsStore.StatsManager.constructor | main.py:39-51 | The store starts as the defaults overwritten by the file's top-level keys, then backfilled (`Load`). |
| StatsStore.StatsManager.Load | main.py:53-62 | A parsed object replaces each top-level key it holds; then `_ensure_defaults` runs, whether or not there was a file. |
| StatsStore.StatsManager.SetDefaults | main.py:77-82 | The `setdefault(k, 0)` loop over a key set gives exactly `Backfill`: missing keys at 0, existing values kept. |
| StatsStore.StatsManager.EnsureDefaults | main.py:74-86 | The new state is `WithDefaults` of the old one: only `by_type` and `translations` are backfilled. |
| StatsStore.StatsManager.RecordEvent | main.py:92-105 | `record_event` on the day `today` gives `Snapshots.RecordEvent` of the old state, with the sender's profile and `strftime` key. `ok` is false exactly when Python raises `KeyError` at the bucket, leaving the partial update. |
| StatsStore.StatsManager.Record | main.py:93-105 | The counter updates and the `setdefault` of the day bucket, in source order, give `Snapshots.RecordEvent`. The bucket is untouched when it has no `"users"` map. |
| StatsStore.StatsManager.RecordTranslation | main.py:107-108 | One direction counter goes up by one (`Snapshots.RecordTranslation`). |
| StatsStore.StatsManager.UniqueUsersInRange | main.py:110-123 | Returns 0 for `days <= 0`. Otherwise returns the number of distinct uids in buckets dated `today-(days-1)` … `today`. |
| StatsStore.StatsManager.CollectWindow | main.py:115-122 | The loop over all buckets collects exactly `WindowUsers`: the uids of the buckets whose key parses into the window. Unparseable keys are skipped. |
| Snapshots.Bump | main.py:94 | `d[k] = d.get(k, 0) + 1` adds `k` to the keys and no other key. |
| Snapshots.BackfillSpec | main.py:77-82 | Backfilling adds exactly the missing keys at 0 and keeps every existing value. |
| Snapshots.WithDefaultsSpec | main.py:74-86 | After `_ensure_defaults`:<br>• `by_type` holds every `TYPE_RU` key and `"text"`;<br>• `translations` holds the three directions;<br>• old values are kept;<br>• nothing else changes;<br>• a second run changes nothing. |
| Snapshots.LoadKeepsStored | main.py:53-62 | Every top-level value the file held survives loading. `by_type` and `translations` are only completed. |
| Snapshots.LoadWithoutFile | main.py:39-51 | Without a file:<br>• the total is 0;<br>• every seeded kind and direction counter is 0;<br>• there are no users or buckets. |
| Snapshots.RecordEventCounters | main.py:93-94 | The total and `by_type[kind]` each go up by 1, a missing kind starting at 0. No other kind and no translation counter changes. |
| Snapshots.RecordEventSender | main.py:95-102 | `users[uid]` goes up by 1, and `usernames[uid]` and `names[uid]` are overwritten. No other user's count changes. |
| Snapshots.RecordEventDaily | main.py:103-105 | With a usable bucket:<br>• today's bucket exists afterwards;<br>• its `users[uid]` goes up by 1 from 0 or its old value;<br>• no other day changes.<br>With an unusable bucket, no day changes. |
| Snapshots.CountInBucketSpec | main.py:104-105 | `setdefault(day, {"users": {}})` followed by the increment adds only today's key and changes only the sender's entry. |
| Snapshots.RecordTranslationCounts | main.py:107-108 | Only the given direction's counter changes, by exactly 1, and nothing else in the store changes. |
| Snapshots.UserId | main.py:95 | `str(id)` is never empty. |
| Snapshots.UserIdInjective | main.py:95 | Two ids give the same key exactly when they are equal, so per-user counters never merge two users. |
| Snapshots.JoinedNameTrimmed | main.py:97-99 | Stripping the joined name gives "first last", "last" or "first", each part already stripped. |
| Snapshots.DisplayNameCases | main.py:97-99 | The stored display name is:<br>• never empty and never padded;<br>• "first last" when both parts are present;<br>• the present part when only one is;<br>• "Без имени" when neither is. |
| Snapshots.ProfileTrimmed | main.py:96-99 | The handle and display name that `record_event` stores are stripped, and the name is non-empty. |
| Snapshots.PrettyNameCases | main.py:125-132 | For any store, with missing entries read as `""` and every value stripped:<br>• a non-empty handle gives the link;<br>• otherwise an empty name or the no-name marker gives `"ID " + uid`;<br>• otherwise the name.<br>The result is never empty. |
| Snapshots.PrettyNameUnknown | main.py:125-131 | A uid with no stored handle and no stored name shows as `"ID " + uid`. |
| Snapshots.PrettyNameStored | main.py:125-132 | For a profile as `record_event` stores it (stripped handle, stripped non-empty name), `pretty_name` gives the link to a non-empty handle, else the name unless it is the no-name marker, else `"ID " + uid`. |
| Snapshots.PrettyNameAfterRecord | main.py:92-132 | After `record_event`, `pretty_name` shows the sender by the latest message's handle, else its display name, else by id. |
| Snapshots.WindowUsersStep | main.py:116-122 | Visiting one more bucket adds its users exactly when its key parses into the window. |
| Snapshots.UniqueUsersMonotone | main.py:110-123 | The unique-user count never decreases as `days` grows. |
| Snapshots.UniqueUsersBounded | main.py:110-123 | No window counts more users than appear across all buckets. |
| Snapshots.RecordedSenderCounted | main.py:92-123 | After a recorded message, the sender is counted by every window of at least one day ending today. |
| Snapshots.RecordEventWindowDelta | main.py:103-123 | `record_event` changes any window's user set only by possibly adding the sender. The count moves by 0 or 1. |
| Snapshots.WindowUsersGrow | main.py:103-122 | Growing one bucket's users by at most `uid` keeps every window user and adds at most `uid`. |
| Snapshots.DailyUsersKnownInitially | main.py:42-50 | A fresh store satisfies the bucket-users invariant. |
| Snapshots.DailyUsersKnownOthers | main.py:74-108 | `record_translation` and `_ensure_defaults` keep the bucket-users invariant. |
| Snapshots.RecordEventKeepsDailyUsersKnown | main.py:100-105 | `record_event` keeps every bucket user a known user with at least as many messages overall as on that day. This holds even on the `KeyError` path. |
| Snapshots.UniqueUsersAtMostAllTime | main.py:110-123 | Under that invariant, no window counts more users than the all-time user list (`/users` shows both numbers). |
| Snapshots.SumUpdate | main.py:94 | Setting one counter changes the sum of all counters by the difference. |
| Snapshots.SumBackfill | main.py:77-79 | Backfilling at 0 does not change the sum of the counters. |
| Snapshots.TotalMatchesKindsInitially | main.py:42-44 | Initially `messages_total` equals the sum of `by_type`, since both are 0. |
| Snapshots.TotalMatchesKindsRecordEvent | main.py:93-94 | `record_event` keeps `messages_total` equal to the sum of `by_type`. |
| Snapshots.TotalMatchesKindsOthers | main.py:74-108 | `record_translation` and `_ensure_defaults` keep that equality. |
| Dates.Ordinal | main.py:118-121 | A valid date's day number (`toordinal()`, 0001-01-01 is day 1) is positive. |
| Dates.OrdinalOrder | main.py:121 | For valid dates, one comes before the other (year, then month, then day, as `date` compares) exactly when its day number is smaller, and the day numbers are equal exactly when the dates are. So `cutoff <= d <= today` is a comparison of day numbers. |
| Dates.ParseDate | main.py:117-120 | A key accepted by `strptime(…, "%Y-%m-%d")` denotes a real calendar date (`None` models the skipped `ValueError`). |
| Dates.FormatDate | main.py:89-90 | `strftime("%Y-%m-%d")` of a date in years 1000–9999 is ten characters with dashes at positions 4 and 7. |
| Dates.ParseFormatRoundTrip | main.py:89-118 | Parsing the key `record_event` writes gives back the same day. |
| Text.TrimBounds | main.py:96-99 | `strip()` returns a middle slice, and only whitespace is cut on either side. |
| Text.TrimTrimmed | main.py:227-240 | A stripped string has no whitespace at either end, and stripping it again changes nothing. |
| Text.TrimEmptyIff | main.py:227-228 | The stripped text is empty exactly when the message is all whitespace. |
| Text.Find | main.py:236 | `find` returns an index exactly when the pattern occurs, and it is the first occurrence. |
| Text.TrimKeepsNoOccurrence | main.py:235-240 | Stripping cannot create a mention. |
| Direction.SearchCyrillicIff | main.py:249-253 | `CYRILLIC_RE.search` succeeds exactly when some character is in `[А-Яа-яЁё]`. |
| Direction.SearchLatinIff | main.py:249-253 | `LATIN_RE.search` succeeds exactly when some character is in `[A-Za-z]`. |
| Direction.Classify | main.py:249-254 | The direction is always one of the three counter labels. |
| Direction.ClassifyByScripts | main.py:249-254 | The routes are:<br>• Cyrillic and no Latin: ("en", ru_to_en);<br>• Latin and no Cyrillic: ("ru", en_to_ru);<br>• both or neither: ("en", other).<br>Each is an if-and-only-if. |
| Mention.MentionOf | main.py:232 | The mention is `@` followed by the lower-cased username, and lowering it again changes nothing. |
| Mention.StripMentions | main.py:235-238 | The cut text contains no case-insensitive mention and is never longer. It is untouched when there was none. |
| Mention.StripMentionsCuts | main.py:235-238 | Following the loop turn by turn, `StripMentions` is the text with a recorded series of mention-length windows deleted (`CutAll`). |
| Mention.CutAllKeepsRest | main.py:236-237 | Deleting windows of `m` characters keeps the rest of the text in order (a subsequence) and removes a whole number of windows. |
| Mention.StripMentionsKeepsRest | main.py:235-238 | The cut text is a subsequence of the original, so everything outside the cut windows is kept, in order. It is shorter by a whole number of mention lengths, and by at least one when a mention occurred. |
| Mention.CutMentions | main.py:235-238 | The `while mention in lower` loop terminates and computes `StripMentions`. |
| Mention.ResolveText | main.py:226-254 | The handler's steps before recording give exactly `Decide`. |
| Mention.EffectiveTextClean | main.py:226-241 | Surviving text is non-empty and stripped. In a group it is free of any case-insensitive mention. |
| Mention.GroupWithoutMentionIgnored | main.py:230-234 | A group message without the mention leads to no action. |
| Mention.BlankIgnored | main.py:226-228 | An all-whitespace message leads to no action in any chat. |
| Mention.PrivateChatKeepsText | main.py:226-230 | In a private chat the whole stripped text is kept, mentions included. |
| Mention.DecideOutcomes | main.py:226-254 | The outcomes are:<br>• no action exactly when no text survives;<br>• emoji exactly when the surviving text has no word character;<br>• otherwise a translation of that text along `Classify`. |
| Dispatch.TranslateText | main.py:225-262 | The handler's new store and reply are `HandleText` of the decision, the sender's profile and today's key. |
| Dispatch.Respond | main.py:242-262 | Counting, translating and replying after the decision give `HandleText`. |
| Dispatch.EchoUnsupported | main.py:265-270 | The media handler's new store and reply are `HandleMedia`. |
| DispatchFacts.HandleTextCounts | main.py:242-259 | An ignored message changes nothing and sends nothing. Any other message raises the total by 1 and its kind ("emoji"/"text") by 1. Emoji never moves a translation counter. A text moves only its own direction's counter, and only when the translation succeeds. |
| DispatchFacts.HandleTextReply | main.py:242-262 | A reply is sent exactly when the message is acted on and its bucket is usable. The reply is the emoji notice, the translation, or the failure notice. A translation is counted exactly when one is sent. |
| DispatchFacts.HandleMediaSpec | main.py:265-270 | Media is always counted under its content type and never as a translation. A registered type is declined with its `TYPE_RU` name. |
| DispatchFacts.HandledKindsSeeded | main.py:26-36 | "emoji", "text" and every registered media type are seeded in `by_type`. |
| DispatchFacts.HandleTextKeepsKinds | main.py:242-247 | Once seeded, a text message never adds a `by_type` key. |
| DispatchFacts.HandleMediaKeepsKinds | main.py:265-267 | Once seeded, a registered media message never adds a `by_type` key. |
| Scenarios.GroupMentionTranslated | main.py:226-254 | In a group, " @Bot hello" to the bot "bot" is translated as "hello", English to Russian. |
| Scenarios.GroupWithoutMention | main.py:230-234 | In a group, "hello" without the mention leads to no action. |
| Scenarios.GroupPunctuationIsEmoji | main.py:226-246 | In a group, "@bot !!" is treated as emoji. |

## Left out

- Telegram transport: `TeleBot`, `get_me`, `set_my_commands`, `polling`, `reply`. A reply is returned instead of sent. Failures of `send_message` are not modelled, including a failed send of a translation, which Python would report as a translation failure.
- The translator is a function parameter (`None` for an exception). A translator returning `None` as a value is not distinguished.
- File persistence: `load` takes the parsed top-level keys as `stored`. `flush` (`json.dump`, `tempfile`, `os.replace`) is not modelled. Values of the wrong JSON type, and extra top-level keys, are not modelled.
- The clock: `today` is a parameter. `Dates.FormatDate` requires years 1000–9999, the years a real clock gives. `strftime` padding for earlier years is not modelled.
- StatsStore.StatsManager.UniqueUsersInRange: does not model the `OverflowError` that `today - timedelta(days - 1)` raises for windows reaching before year 1. The window bound is an unbounded integer.
- Dates.ParseDate: only ASCII digits are accepted, while CPython's `\d` also accepts other Unicode digits.
- Text.LowerChar: case mappings other than `A`–`Z` and the Kelvin sign are not modelled. This includes the mappings that change a string's length, which would misalign `idx` in the Python loop.
- Mention.OnlyNonWord: Unicode's `\w` is the parameter `isWordChar`, not the Unicode tables.
- Mention.StripMentionsKeepsRest: states that whole mention-length windows were deleted and the rest kept in order. It does not state that each deleted window spelled the mention, nor where the windows were.
- The `/start`, `/users` and `/stats` command handlers (HTML text assembly and the admin check) are not modelled, and neither are logging, the `.env` token check or the `path`/`type_ru` attributes beyond the seeded kinds.
- Concurrency: handlers are modelled as running one after another. `TeleBot` may run handlers on several threads, and two concurrent `+= 1` updates of the same counter could lose a count. No lemma covers interleaved handlers.
- Aliasing: the store is one `Snapshot` value held in a field, so nested dicts shared between keys (impossible after `json.load`) are not modelled.
