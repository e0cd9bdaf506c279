/**
 * The usage statistics `StatsManager` keeps in its `stats` dict, as a value, and each of
 * its operations as a function from the old value to the new one. The class in
 * `StatsStore` performs these updates in place; the lemmas here say what they mean.
 */
module Snapshots {
  import opened Wrappers
  import opened Text
  import Dates
  import Direction

  /** A JSON object of counters, such as `by_type` or `users`. */
  type Counts = map<string, int>

  /** One entry of `daily`: `{"users": {uid: messages that day}}`. */
  type Bucket = map<string, Counts>

  datatype Snapshot = Snapshot(
    messagesTotal: int,
    byType: Counts,                   // content kind -> messages
    translations: Counts,             // direction label -> successful translations
    users: Counts,                    // uid -> messages
    usernames: map<string, string>,   // uid -> last seen handle, possibly empty
    names: map<string, string>,       // uid -> last seen display name
    daily: map<string, Bucket>)       // "YYYY-MM-DD" -> bucket

  const TextKind := "text"
  const EmojiKind := "emoji"
  const UsersKey := "users"

  /** The display name stored when a sender has neither a first nor a last name. */
  const NoName := "Без имени"

  /** `d.get(k, 0)`. */
  function Get(m: Counts, k: string): int {
    if k in m then m[k] else 0
  }

  /** `d[k] = d.get(k, 0) + 1`. */
  function Bump(m: Counts, k: string): (r: Counts)
    ensures r.Keys == m.Keys + {k}
  {
    m[k := Get(m, k) + 1]
  }

  /** `for k in keys: d.setdefault(k, 0)`. */
  function Backfill(m: Counts, keys: set<string>): (r: Counts)
  {
    map k | k in m.Keys + keys :: if k in m then m[k] else 0
  }

  /** The kinds `by_type` is seeded with: the keys of `type_ru`, plus `"text"`. */
  function SeededKinds(typeKinds: set<string>): set<string> {
    typeKinds + {TextKind}
  }

  /** The dict `__init__` starts from. */
  function Defaults(typeKinds: set<string>): Snapshot {
    Snapshot(0, Backfill(map[], SeededKinds(typeKinds)), Backfill(map[], Direction.Directions),
             map[], map[], map[], map[])
  }

  /**
   * `_ensure_defaults`: every seeded kind and every direction label gets a counter,
   * at 0 when it is new. (The top-level `setdefault`s always find their key here,
   * since every field of a snapshot is present.)
   */
  function WithDefaults(s: Snapshot, typeKinds: set<string>): Snapshot {
    s.(byType := Backfill(s.byType, SeededKinds(typeKinds)),
       translations := Backfill(s.translations, Direction.Directions))
  }

  /** The top-level keys found in a parsed `stats.json`; each may be missing. */
  datatype Stored = Stored(
    messagesTotal: Option<int>,
    byType: Option<Counts>,
    translations: Option<Counts>,
    users: Option<Counts>,
    usernames: Option<map<string, string>>,
    names: Option<map<string, string>>,
    daily: Option<map<string, Bucket>>)

  /** `self.stats.update(loaded)`: each key present in the file replaces the whole default value. */
  function Overlay(s: Snapshot, f: Stored): Snapshot {
    Snapshot(f.messagesTotal.GetOr(s.messagesTotal), f.byType.GetOr(s.byType),
             f.translations.GetOr(s.translations), f.users.GetOr(s.users),
             f.usernames.GetOr(s.usernames), f.names.GetOr(s.names), f.daily.GetOr(s.daily))
  }

  /** `__init__` followed by `load`: the defaults, overwritten by what the file holds (if it parsed as an object), then backfilled. */
  function Load(typeKinds: set<string>, stored: Option<Stored>): Snapshot {
    var base := Defaults(typeKinds);
    WithDefaults(if stored.Some? then Overlay(base, stored.value) else base, typeKinds)
  }

  // ---------------------------------------------------------------------------
  // Who sent a message

  datatype Sender = Sender(id: int, username: Option<string>, firstName: Option<string>, lastName: Option<string>)

  function NatToDecimal(n: nat): (s: string)
    ensures |s| > 0
  {
    if n < 10 then [Dates.DigitChar(n)] else NatToDecimal(n / 10) + [Dates.DigitChar(n % 10)]
  }

  /** `str(message.from_user.id)`. */
  function UserId(id: int): (s: string)
    ensures |s| > 0
  {
    if id < 0 then "-" + NatToDecimal(-id) else NatToDecimal(id)
  }

  lemma {:induction false} NatToDecimalDigits(n: nat)
    ensures forall i :: 0 <= i < |NatToDecimal(n)| ==> Dates.IsDigit(NatToDecimal(n)[i])
  {
    if n >= 10 {
      NatToDecimalDigits(n / 10);
    }
  }

  lemma {:induction false} NatToDecimalInjective(a: nat, b: nat)
    requires NatToDecimal(a) == NatToDecimal(b)
    ensures a == b
  {
    var s := NatToDecimal(a);
    if a >= 10 && b >= 10 {
      assert s[..|s| - 1] == NatToDecimal(a / 10) && s[..|s| - 1] == NatToDecimal(b / 10);
      NatToDecimalInjective(a / 10, b / 10);
      assert Dates.DigitValue(s[|s| - 1]) == a % 10 == b % 10;
    } else if a < 10 && b < 10 {
      assert Dates.DigitValue(s[0]) == a == b;
    }
  }

  /** Distinct Telegram user ids give distinct keys, so per-user counters never merge two users. */
  lemma UserIdInjective(id1: int, id2: int)
    ensures UserId(id1) == UserId(id2) <==> id1 == id2
  {
    if UserId(id1) == UserId(id2) {
      NatToDecimalDigits(if id1 < 0 then -id1 else id1);
      NatToDecimalDigits(if id2 < 0 then -id2 else id2);
      assert (UserId(id1)[0] == '-' <==> id1 < 0) && (UserId(id2)[0] == '-' <==> id2 < 0);
      if id1 < 0 && id2 < 0 {
        assert UserId(id1)[1..] == NatToDecimal(-id1) && UserId(id2)[1..] == NatToDecimal(-id2);
        NatToDecimalInjective(-id1, -id2);
      } else if id1 >= 0 && id2 >= 0 {
        NatToDecimalInjective(id1, id2);
      }
    }
  }

  /** What `record_event` stores about a sender: the uid, the stripped handle and the display name. */
  datatype Profile = Profile(uid: string, handle: string, name: string)

  function ProfileOf(sender: Sender): Profile {
    Profile(UserId(sender.id), Trim(sender.username.GetOr("")), DisplayName(sender.firstName, sender.lastName))
  }

  /** `(first + (" " + last if last else "")).strip() or "Без имени"`, with both parts stripped first. */
  function DisplayName(firstName: Option<string>, lastName: Option<string>): string {
    var full := Trim(JoinedName(firstName, lastName));
    if full == [] then NoName else full
  }

  lemma TrimOfTrimmed(s: string)
    requires s == [] || (!IsSpace(s[0]) && !IsSpace(s[|s| - 1]))
    ensures Trim(s) == s
  {
  }

  lemma TrimJoined(first: string, last: string)
    requires Trim(first) == first && Trim(last) == last && first != [] && last != []
    ensures Trim(first + " " + last) == first + " " + last
  {
    TrimTrimmed(first);
    TrimTrimmed(last);
    var full := first + " " + last;
    assert full[0] == first[0] && full[|full| - 1] == last[|last| - 1];
    TrimOfTrimmed(full);
  }

  lemma TrimSpaceThen(last: string)
    requires Trim(last) == last
    ensures Trim(" " + last) == last
  {
    assert TrimStart(" " + last) == TrimStart(last);
  }

  lemma NoNameTrimmed()
    ensures Trim(NoName) == NoName
  {
    assert NoName[0] == 'Б' && NoName[|NoName| - 1] == 'и';
    TrimOfTrimmed(NoName);
  }

  /** The display name before the no-name fallback: the two stripped parts, joined by a space when there is a last name. */
  function JoinedName(firstName: Option<string>, lastName: Option<string>): string {
    var last := Trim(lastName.GetOr(""));
    Trim(firstName.GetOr("")) + (if last != [] then " " + last else "")
  }

  lemma DisplayNameUnfold(firstName: Option<string>, lastName: Option<string>)
    ensures var full := Trim(JoinedName(firstName, lastName));
            DisplayName(firstName, lastName) == if full == [] then NoName else full
  {
  }

  /** With both parts present the joined name is already trimmed. */
  lemma JoinedBoth(firstName: Option<string>, lastName: Option<string>)
    requires Trim(firstName.GetOr("")) != [] && Trim(lastName.GetOr("")) != []
    ensures Trim(JoinedName(firstName, lastName)) == Trim(firstName.GetOr("")) + " " + Trim(lastName.GetOr(""))
  {
    var first := Trim(firstName.GetOr(""));
    var last := Trim(lastName.GetOr(""));
    assert JoinedName(firstName, lastName) == first + " " + last;
    TrimTrimmed(firstName.GetOr(""));
    TrimTrimmed(lastName.GetOr(""));
    TrimJoined(first, last);
  }

  /** With only a last name, the leading space is trimmed away. */
  lemma JoinedLastOnly(firstName: Option<string>, lastName: Option<string>)
    requires Trim(firstName.GetOr("")) == [] && Trim(lastName.GetOr("")) != []
    ensures Trim(JoinedName(firstName, lastName)) == Trim(lastName.GetOr(""))
  {
    var last := Trim(lastName.GetOr(""));
    assert JoinedName(firstName, lastName) == " " + last;
    TrimTrimmed(lastName.GetOr(""));
    TrimSpaceThen(last);
  }

  /** Without a last name, the joined name is the stripped first name. */
  lemma JoinedFirstOnly(firstName: Option<string>, lastName: Option<string>)
    requires Trim(lastName.GetOr("")) == []
    ensures Trim(JoinedName(firstName, lastName)) == Trim(firstName.GetOr(""))
  {
    assert JoinedName(firstName, lastName) == Trim(firstName.GetOr(""));
    TrimTrimmed(firstName.GetOr(""));
  }

  /** Trimming the joined name gives back "first last", "first", "last", or nothing. */
  lemma JoinedNameTrimmed(firstName: Option<string>, lastName: Option<string>)
    ensures var first := Trim(firstName.GetOr(""));
            var last := Trim(lastName.GetOr(""));
            Trim(JoinedName(firstName, lastName)) ==
              if first != [] && last != [] then first + " " + last
              else if last != [] then last
              else first
  {
    var first := Trim(firstName.GetOr(""));
    var last := Trim(lastName.GetOr(""));
    if first != [] && last != [] {
      JoinedBoth(firstName, lastName);
    } else if last != [] {
      JoinedLastOnly(firstName, lastName);
    } else {
      JoinedFirstOnly(firstName, lastName);
    }
  }

  /**
   * The stored name is never empty and never padded: it is "first last" when both
   * are given, whichever one is given otherwise, and the no-name marker when neither is.
   */
  lemma DisplayNameCases(firstName: Option<string>, lastName: Option<string>)
    ensures var first := Trim(firstName.GetOr(""));
            var last := Trim(lastName.GetOr(""));
            var r := DisplayName(firstName, lastName);
            && r != [] && Trim(r) == r
            && r == if first != [] && last != [] then first + " " + last
                    else if last != [] then last
                    else if first != [] then first
                    else NoName
  {
    var first := Trim(firstName.GetOr(""));
    var last := Trim(lastName.GetOr(""));
    DisplayNameUnfold(firstName, lastName);
    JoinedNameTrimmed(firstName, lastName);
    TrimTrimmed(JoinedName(firstName, lastName));
    NoNameTrimmed();
  }

  // ---------------------------------------------------------------------------
  // record_event and record_translation

  /** `payload.get("users", {})`. */
  function UsersOf(b: Bucket): Counts {
    if UsersKey in b then b[UsersKey] else map[]
  }

  /**
   * `record_event` can finish: today's bucket is new, or it has its "users" map. A bucket
   * loaded from a file without that key makes `bucket["users"]` raise `KeyError`.
   */
  predicate BucketUsable(s: Snapshot, day: string) {
    day !in s.daily || UsersKey in s.daily[day]
  }

  /**
   * The store after `record_event(message, kind)` on day `day`. When today's bucket is
   * not usable, Python raises after everything but the daily bucket was updated; the
   * result is that partial update.
   */
  function RecordEvent(s: Snapshot, p: Profile, kind: string, day: string): Snapshot {
    var s1 := s.(messagesTotal := s.messagesTotal + 1,
                 byType := Bump(s.byType, kind),
                 users := Bump(s.users, p.uid),
                 usernames := s.usernames[p.uid := p.handle],
                 names := s.names[p.uid := p.name]);
    if !BucketUsable(s, day) then s1 else s1.(daily := CountInBucket(s.daily, day, p.uid))
  }

  /** `bucket = daily.setdefault(day, {"users": {}})` then `bucket["users"][uid] = bucket["users"].get(uid, 0) + 1`. */
  function CountInBucket(daily: map<string, Bucket>, day: string, uid: string): map<string, Bucket>
    requires day !in daily || UsersKey in daily[day]
  {
    var bucket := if day in daily then daily[day] else map[UsersKey := map[]];
    daily[day := bucket[UsersKey := Bump(bucket[UsersKey], uid)]]
  }

  /** `record_translation(direction)`. */
  function RecordTranslation(s: Snapshot, direction: string): Snapshot {
    s.(translations := Bump(s.translations, direction))
  }

  /** `record_event` counts one message: the total and its kind go up by one, no other kind and no translation counter moves. */
  lemma RecordEventCounters(s: Snapshot, p: Profile, kind: string, day: string)
    ensures var r := RecordEvent(s, p, kind, day);
            && r.messagesTotal == s.messagesTotal + 1
            && r.byType.Keys == s.byType.Keys + {kind}
            && Get(r.byType, kind) == Get(s.byType, kind) + 1
            && (forall k :: k in s.byType && k != kind ==> r.byType[k] == s.byType[k])
            && r.translations == s.translations
  {
  }

  /**
   * `record_event` counts the sender: their total goes up by one, their handle and name
   * are overwritten with what the message carries, and no other user's entries change.
   */
  lemma RecordEventSender(s: Snapshot, p: Profile, kind: string, day: string)
    ensures var r := RecordEvent(s, p, kind, day);
            var uid := p.uid;
            && r.users.Keys == s.users.Keys + {uid}
            && Get(r.users, uid) == Get(s.users, uid) + 1
            && r.usernames == s.usernames[uid := p.handle]
            && r.names == s.names[uid := p.name]
            && (forall u :: u in s.users && u != uid ==> r.users[u] == s.users[u])
  {
  }

  /**
   * `record_event` counts the sender in today's bucket, creating the bucket or the entry
   * at zero: only that entry changes, and no other day does. When the bucket is not
   * usable, no day changes at all.
   */
  lemma RecordEventDaily(s: Snapshot, p: Profile, kind: string, day: string)
    ensures var r := RecordEvent(s, p, kind, day);
            var uid := p.uid;
            var before := if day in s.daily then UsersOf(s.daily[day]) else map[];
            && (BucketUsable(s, day) ==>
                  && r.daily.Keys == s.daily.Keys + {day}
                  && UsersOf(r.daily[day]) == before[uid := Get(before, uid) + 1]
                  && (forall d :: d in s.daily && d != day ==> r.daily[d] == s.daily[d]))
            && (!BucketUsable(s, day) ==> r.daily == s.daily)
  {
    if BucketUsable(s, day) {
      var uid := p.uid;
      assert RecordEvent(s, p, kind, day).daily == CountInBucket(s.daily, day, uid);
      CountInBucketSpec(s.daily, day, uid);
    }
  }

  lemma CountInBucketSpec(daily: map<string, Bucket>, day: string, uid: string)
    requires day !in daily || UsersKey in daily[day]
    ensures var r := CountInBucket(daily, day, uid);
            var before := if day in daily then UsersOf(daily[day]) else map[];
            && r.Keys == daily.Keys + {day}
            && UsersOf(r[day]) == before[uid := Get(before, uid) + 1]
            && (forall d :: d in daily && d != day ==> r[d] == daily[d])
  {
  }

  /** `record_translation` raises exactly one direction counter by one, creating it at zero, and nothing else. */
  lemma RecordTranslationCounts(s: Snapshot, direction: string)
    ensures var r := RecordTranslation(s, direction);
            && r.translations.Keys == s.translations.Keys + {direction}
            && Get(r.translations, direction) == Get(s.translations, direction) + 1
            && (forall k :: k in s.translations && k != direction ==> r.translations[k] == s.translations[k])
            && r == s.(translations := r.translations)
  {
  }

  // ---------------------------------------------------------------------------
  // _ensure_defaults and load

  /** Backfilling adds exactly the missing keys, at zero, and keeps every value already there. */
  lemma BackfillSpec(m: Counts, keys: set<string>)
    ensures var r := Backfill(m, keys);
            && r.Keys == m.Keys + keys
            && (forall k :: k in m ==> r[k] == m[k])
            && (forall k :: k in keys && k !in m ==> r[k] == 0)
  {
  }

  /**
   * After `_ensure_defaults`, `by_type` has every seeded kind and `translations` every
   * direction label; counters that existed keep their value; nothing else changes; and
   * running it again changes nothing.
   */
  lemma WithDefaultsSpec(s: Snapshot, typeKinds: set<string>)
    ensures var r := WithDefaults(s, typeKinds);
            && r.byType.Keys == s.byType.Keys + SeededKinds(typeKinds)
            && r.translations.Keys == s.translations.Keys + Direction.Directions
            && (forall k :: k in s.byType ==> r.byType[k] == s.byType[k])
            && (forall k :: k in s.translations ==> r.translations[k] == s.translations[k])
            && r == s.(byType := r.byType, translations := r.translations)
            && WithDefaults(r, typeKinds) == r
  {
    var r := WithDefaults(s, typeKinds);
    assert Backfill(r.byType, SeededKinds(typeKinds)) == r.byType;
    assert Backfill(r.translations, Direction.Directions) == r.translations;
  }

  /**
   * After loading, every top-level value the file held is kept as is, except that
   * `by_type` and `translations` are completed with the missing labels.
   */
  lemma LoadKeepsStored(typeKinds: set<string>, f: Stored)
    ensures var r := Load(typeKinds, Some(f));
            && (f.messagesTotal.Some? ==> r.messagesTotal == f.messagesTotal.value)
            && (f.users.Some? ==> r.users == f.users.value)
            && (f.usernames.Some? ==> r.usernames == f.usernames.value)
            && (f.names.Some? ==> r.names == f.names.value)
            && (f.daily.Some? ==> r.daily == f.daily.value)
            && (f.byType.Some? ==> r.byType == Backfill(f.byType.value, SeededKinds(typeKinds)))
            && (f.translations.Some? ==> r.translations == Backfill(f.translations.value, Direction.Directions))
  {
  }

  /** Without a usable file the store starts from zero: no messages, every seeded counter at 0, no users. */
  lemma LoadWithoutFile(typeKinds: set<string>)
    ensures var r := Load(typeKinds, None);
            && r.messagesTotal == 0
            && r.byType.Keys == SeededKinds(typeKinds)
            && (forall k :: k in r.byType ==> r.byType[k] == 0)
            && r.translations.Keys == Direction.Directions
            && (forall k :: k in r.translations ==> r.translations[k] == 0)
            && r.users == map[] && r.daily == map[]
  {
    var base := Defaults(typeKinds);
    assert Backfill(base.byType, SeededKinds(typeKinds)) == base.byType;
    assert Backfill(base.translations, Direction.Directions) == base.translations;
  }

  // ---------------------------------------------------------------------------
  // unique_users_in_range

  /** A bucket key that `strptime` accepts as a day between `lo` and `hi`, inclusive. */
  predicate InWindow(key: string, lo: int, hi: int) {
    var d := Dates.ParseDate(key);
    d.Some? && lo <= d.value <= hi
  }

  /** The uids of the buckets among `keys` whose day lies in the window: the set `uniq` accumulates. */
  function WindowUsers(daily: map<string, Bucket>, keys: set<string>, lo: int, hi: int): set<string> {
    set key, u | key in keys && key in daily && InWindow(key, lo, hi) && u in UsersOf(daily[key]) :: u
  }

  /** Every uid that appears in any bucket. */
  function BucketUsers(daily: map<string, Bucket>): set<string> {
    set key, u | key in daily && u in UsersOf(daily[key]) :: u
  }

  /**
   * `unique_users_in_range(days)` on day number `today`: nothing for a non-positive
   * window, otherwise the distinct uids of the buckets dated from `today - (days - 1)`
   * through `today`.
   */
  function UniqueUsersInRange(s: Snapshot, today: int, days: int): nat {
    if days <= 0 then 0 else |WindowUsers(s.daily, s.daily.Keys, today - (days - 1), today)|
  }

  /** Adding one bucket to those already visited adds its users exactly when it is in the window. */
  lemma WindowUsersStep(daily: map<string, Bucket>, keys: set<string>, key: string, lo: int, hi: int)
    requires key in daily
    ensures WindowUsers(daily, keys + {key}, lo, hi)
            == WindowUsers(daily, keys, lo, hi) + (if InWindow(key, lo, hi) then UsersOf(daily[key]).Keys else {})
  {
    var extra := if InWindow(key, lo, hi) then UsersOf(daily[key]).Keys else {};
    forall u | u in WindowUsers(daily, keys, lo, hi) + extra
      ensures u in WindowUsers(daily, keys + {key}, lo, hi)
    {
      if u !in extra {
        var k :| k in keys && k in daily && InWindow(k, lo, hi) && u in UsersOf(daily[k]);
        assert k in keys + {key};
      }
    }
  }

  lemma {:induction false} SubsetCardinality(a: set<string>, b: set<string>)
    requires a <= b
    ensures |a| <= |b|
    decreases |b|
  {
    if a != {} {
      var x :| x in a;
      SubsetCardinality(a - {x}, b - {x});
    }
  }

  /** Widening the window never loses a user: the count is non-decreasing in `days`. */
  lemma UniqueUsersMonotone(s: Snapshot, today: int, days: int, moreDays: int)
    requires days <= moreDays
    ensures UniqueUsersInRange(s, today, days) <= UniqueUsersInRange(s, today, moreDays)
  {
    if days > 0 {
      var narrow := WindowUsers(s.daily, s.daily.Keys, today - (days - 1), today);
      var wide := WindowUsers(s.daily, s.daily.Keys, today - (moreDays - 1), today);
      assert narrow <= wide;
      SubsetCardinality(narrow, wide);
    }
  }

  /** No window counts more users than appear in all the buckets together. */
  lemma UniqueUsersBounded(s: Snapshot, today: int, days: int)
    ensures UniqueUsersInRange(s, today, days) <= |BucketUsers(s.daily)|
  {
    if days > 0 {
      var w := WindowUsers(s.daily, s.daily.Keys, today - (days - 1), today);
      assert w <= BucketUsers(s.daily);
      SubsetCardinality(w, BucketUsers(s.daily));
    }
  }

  /**
   * A message recorded today is counted by every window ending today: after
   * `record_event` the sender is among the window's users.
   */
  lemma RecordedSenderCounted(s: Snapshot, p: Profile, kind: string, today: Dates.Date, days: int)
    requires Dates.IsClockDate(today) && days >= 1
    requires BucketUsable(s, Dates.FormatDate(today))
    ensures var r := RecordEvent(s, p, kind, Dates.FormatDate(today));
            var t := Dates.Ordinal(today);
            p.uid in WindowUsers(r.daily, r.daily.Keys, t - (days - 1), t)
  {
    var day := Dates.FormatDate(today);
    var r := RecordEvent(s, p, kind, day);
    Dates.ParseFormatRoundTrip(today);
    RecordEventDaily(s, p, kind, day);
    assert InWindow(day, Dates.Ordinal(today) - (days - 1), Dates.Ordinal(today));
    assert p.uid in UsersOf(r.daily[day]);
  }

  // ---------------------------------------------------------------------------
  // Invariants the store keeps

  /**
   * No user count is negative, and every uid in a daily bucket is a known user with at
   * least as many messages overall as on that day.
   */
  ghost predicate DailyUsersKnown(s: Snapshot) {
    && (forall u :: u in s.users ==> s.users[u] >= 0)
    && (forall day, u :: day in s.daily && u in UsersOf(s.daily[day]) ==>
          u in s.users && s.users[u] >= UsersOf(s.daily[day])[u])
  }

  /** A fresh store has no buckets, so every bucket user is trivially known. */
  lemma DailyUsersKnownInitially(typeKinds: set<string>)
    ensures DailyUsersKnown(Defaults(typeKinds))
  {
  }

  /** `record_translation` and `_ensure_defaults` touch neither users nor buckets. */
  lemma DailyUsersKnownOthers(s: Snapshot, direction: string, typeKinds: set<string>)
    requires DailyUsersKnown(s)
    ensures DailyUsersKnown(RecordTranslation(s, direction))
    ensures DailyUsersKnown(WithDefaults(s, typeKinds))
  {
    assert RecordTranslation(s, direction).users == s.users && RecordTranslation(s, direction).daily == s.daily;
    assert WithDefaults(s, typeKinds).users == s.users && WithDefaults(s, typeKinds).daily == s.daily;
  }

  /**
   * `record_event` keeps every bucket user known: it raises the sender's overall count
   * together with their count for the day (or, when it stops at a broken bucket, the
   * overall count alone).
   */
  lemma RecordEventKeepsDailyUsersKnown(s: Snapshot, p: Profile, kind: string, day: string)
    requires DailyUsersKnown(s)
    ensures DailyUsersKnown(RecordEvent(s, p, kind, day))
  {
    var r := RecordEvent(s, p, kind, day);
    var uid := p.uid;
    RecordEventSender(s, p, kind, day);
    RecordEventDaily(s, p, kind, day);
    forall d, u | d in r.daily && u in UsersOf(r.daily[d])
      ensures u in r.users && r.users[u] >= UsersOf(r.daily[d])[u]
    {
      if BucketUsable(s, day) && d == day {
        var before := if day in s.daily then UsersOf(s.daily[day]) else map[];
        assert UsersOf(r.daily[d]) == before[uid := Get(before, uid) + 1];
        if u != uid {
          assert day in s.daily && u in UsersOf(s.daily[day]);
        } else if u in before {
          assert s.users[u] >= UsersOf(s.daily[day])[u];
        }
      } else {
        assert d in s.daily && r.daily[d] == s.daily[d];
      }
    }
  }

  /** When every bucket user is known, no window counts more users than the all-time user list. */
  lemma UniqueUsersAtMostAllTime(s: Snapshot, today: int, days: int)
    requires DailyUsersKnown(s)
    ensures UniqueUsersInRange(s, today, days) <= |s.users|
  {
    if days > 0 {
      var w := WindowUsers(s.daily, s.daily.Keys, today - (days - 1), today);
      forall u | u in w ensures u in s.users.Keys {
        var day :| day in s.daily && u in UsersOf(s.daily[day]);
      }
      SubsetCardinality(w, s.users.Keys);
    }
  }

  /** The sum of all counters in `m`. */
  ghost function Sum(m: Counts): int
    decreases |m|
  {
    if m == map[] then 0
    else
      var k := PickKey(m);
      m[k] + Sum(m - {k})
  }

  ghost function PickKey(m: Counts): (k: string)
    requires m != map[]
    ensures k in m
  {
    var k :| k in m; k
  }

  lemma {:induction false} SumRemove(m: Counts, k: string)
    requires k in m
    ensures Sum(m) == m[k] + Sum(m - {k})
    decreases |m|
  {
    var j := PickKey(m);
    if j != k {
      assert (m - {k}).Keys == m.Keys - {k};
      SumRemove(m - {j}, k);
      SumRemove(m - {k}, j);
      assert m - {j} - {k} == m - {k} - {j};
    }
  }

  /** Setting one counter changes the sum by exactly the difference. */
  lemma SumUpdate(m: Counts, k: string, v: int)
    ensures Sum(m[k := v]) == Sum(m) - Get(m, k) + v
  {
    SumRemove(m[k := v], k);
    assert m[k := v] - {k} == m - {k};
    if k in m {
      SumRemove(m, k);
    } else {
      assert m - {k} == m;
    }
  }

  /** Backfilling adds only zeros, so it leaves the sum unchanged. */
  lemma {:induction false} SumBackfill(m: Counts, keys: set<string>)
    ensures Sum(Backfill(m, keys)) == Sum(m)
    decreases keys
  {
    if keys <= m.Keys {
      assert Backfill(m, keys) == m;
    } else {
      var k :| k in keys && k !in m;
      var smaller := Backfill(m, keys - {k});
      assert Backfill(m, keys) == smaller[k := 0];
      SumBackfill(m, keys - {k});
      SumUpdate(smaller, k, 0);
    }
  }

  /** `messages_total` equals the sum of the per-kind counters. */
  ghost predicate TotalMatchesKinds(s: Snapshot) {
    s.messagesTotal == Sum(s.byType)
  }

  /** A fresh store starts with the total equal to the sum of `by_type`: both are zero. */
  lemma TotalMatchesKindsInitially(typeKinds: set<string>)
    ensures TotalMatchesKinds(Defaults(typeKinds))
  {
    SumBackfill(map[], SeededKinds(typeKinds));
    assert Sum(map[]) == 0;
  }

  /** `record_event` raises the total and exactly one kind together. */
  lemma TotalMatchesKindsRecordEvent(s: Snapshot, p: Profile, kind: string, day: string)
    requires TotalMatchesKinds(s)
    ensures TotalMatchesKinds(RecordEvent(s, p, kind, day))
  {
    SumUpdate(s.byType, kind, Get(s.byType, kind) + 1);
    assert RecordEvent(s, p, kind, day).byType == Bump(s.byType, kind);
  }

  /** `record_translation` and `_ensure_defaults` leave the total and the kinds' sum alone. */
  lemma TotalMatchesKindsOthers(s: Snapshot, direction: string, typeKinds: set<string>)
    requires TotalMatchesKinds(s)
    ensures TotalMatchesKinds(RecordTranslation(s, direction))
    ensures TotalMatchesKinds(WithDefaults(s, typeKinds))
  {
    SumBackfill(s.byType, SeededKinds(typeKinds));
  }

  /**
   * `record_event` changes any window by at most its sender: no user leaves the window
   * and the only one who may join is the sender, so the count moves by 0 or 1.
   */
  lemma RecordEventWindowDelta(s: Snapshot, p: Profile, kind: string, day: string, lo: int, hi: int)
    ensures var r := RecordEvent(s, p, kind, day);
            var before := WindowUsers(s.daily, s.daily.Keys, lo, hi);
            var after := WindowUsers(r.daily, r.daily.Keys, lo, hi);
            && before <= after <= before + {p.uid}
            && |before| <= |after| <= |before| + 1
  {
    var r := RecordEvent(s, p, kind, day);
    var before := WindowUsers(s.daily, s.daily.Keys, lo, hi);
    var after := WindowUsers(r.daily, r.daily.Keys, lo, hi);
    RecordEventWindowUsers(s, p, kind, day, lo, hi);
    SubsetCardinality(before, after);
    SubsetCardinality(after, before + {p.uid});
  }

  lemma RecordEventWindowUsers(s: Snapshot, p: Profile, kind: string, day: string, lo: int, hi: int)
    ensures var r := RecordEvent(s, p, kind, day);
            var before := WindowUsers(s.daily, s.daily.Keys, lo, hi);
            var after := WindowUsers(r.daily, r.daily.Keys, lo, hi);
            before <= after <= before + {p.uid}
  {
    var r := RecordEvent(s, p, kind, day);
    RecordEventDaily(s, p, kind, day);
    WindowUsersGrow(s.daily, r.daily, day, p.uid, lo, hi);
  }

  /**
   * Replacing one bucket by one that holds the same users plus perhaps `uid`, or adding such
   * a bucket, keeps every window user and adds at most `uid`.
   */
  lemma WindowUsersGrow(sd: map<string, Bucket>, rd: map<string, Bucket>, day: string, uid: string, lo: int, hi: int)
    requires sd.Keys <= rd.Keys <= sd.Keys + {day}
    requires forall d :: d in sd && d != day ==> rd[d] == sd[d]
    requires day in sd ==> UsersOf(sd[day]).Keys <= UsersOf(rd[day]).Keys
    requires day in rd ==> UsersOf(rd[day]).Keys <= (if day in sd then UsersOf(sd[day]).Keys else {}) + {uid}
    ensures WindowUsers(sd, sd.Keys, lo, hi) <= WindowUsers(rd, rd.Keys, lo, hi)
    ensures WindowUsers(rd, rd.Keys, lo, hi) <= WindowUsers(sd, sd.Keys, lo, hi) + {uid}
  {
    WindowUsersKept(sd, rd, day, lo, hi);
    WindowUsersJoined(sd, rd, day, uid, lo, hi);
  }

  lemma WindowUsersKept(sd: map<string, Bucket>, rd: map<string, Bucket>, day: string, lo: int, hi: int)
    requires sd.Keys <= rd.Keys
    requires forall d :: d in sd && d != day ==> rd[d] == sd[d]
    requires day in sd ==> UsersOf(sd[day]).Keys <= UsersOf(rd[day]).Keys
    ensures WindowUsers(sd, sd.Keys, lo, hi) <= WindowUsers(rd, rd.Keys, lo, hi)
  {
    forall u | u in WindowUsers(sd, sd.Keys, lo, hi) ensures u in WindowUsers(rd, rd.Keys, lo, hi) {
      var k :| k in sd.Keys && k in sd && InWindow(k, lo, hi) && u in UsersOf(sd[k]);
      assert k in rd && u in UsersOf(rd[k]);
    }
  }

  lemma WindowUsersJoined(sd: map<string, Bucket>, rd: map<string, Bucket>, day: string, uid: string, lo: int, hi: int)
    requires rd.Keys <= sd.Keys + {day}
    requires forall d :: d in rd && d != day ==> d in sd && rd[d] == sd[d]
    requires day in rd ==> UsersOf(rd[day]).Keys <= (if day in sd then UsersOf(sd[day]).Keys else {}) + {uid}
    ensures WindowUsers(rd, rd.Keys, lo, hi) <= WindowUsers(sd, sd.Keys, lo, hi) + {uid}
  {
    forall u | u in WindowUsers(rd, rd.Keys, lo, hi) && u != uid ensures u in WindowUsers(sd, sd.Keys, lo, hi) {
      var k :| k in rd.Keys && k in rd && InWindow(k, lo, hi) && u in UsersOf(rd[k]);
      if k == day {
        assert u in UsersOf(rd[day]).Keys - {uid};
        assert day in sd && u in UsersOf(sd[day]);
      } else {
        assert k in sd && rd[k] == sd[k];
      }
    }
  }

  // ---------------------------------------------------------------------------
  // pretty_name

  /**
   * `pretty_name(uid)`: a link to the handle when one is stored, else the stored name
   * unless it is empty or the no-name marker, else "ID <uid>".
   */
  function PrettyName(s: Snapshot, uid: string): string {
    var username := Trim(if uid in s.usernames then s.usernames[uid] else "");
    if username != [] then HandleLink(username)
    else
      var name := Trim(if uid in s.names then s.names[uid] else "");
      if name == [] || name == NoName then "ID " + uid else name
  }

  /** `f'<a href="https://t.me/{username}">@{username}</a>'`. */
  function HandleLink(username: string): string {
    "<a href=\"https://t.me/" + username + "\">@" + username + "</a>"
  }

  /** What `record_event` stores for a sender is already stripped, and the name is never empty. */
  lemma ProfileTrimmed(sender: Sender)
    ensures var p := ProfileOf(sender);
            Trim(p.handle) == p.handle && Trim(p.name) == p.name && p.name != []
  {
    TrimTrimmed(sender.username.GetOr(""));
    DisplayNameCases(sender.firstName, sender.lastName);
  }

  /** The stored value under `uid`, `""` when there is none: `d.get(uid) or ""`. */
  function StoredOr(d: map<string, string>, uid: string): string {
    if uid in d then d[uid] else ""
  }

  /**
   * `pretty_name` for any store, including entries missing or padded in a loaded file:
   * the stripped handle wins when non-empty; otherwise the stripped name unless it is
   * empty or the no-name marker; otherwise "ID <uid>". The result is never empty.
   */
  lemma PrettyNameCases(s: Snapshot, uid: string)
    ensures var handle, name := Trim(StoredOr(s.usernames, uid)), Trim(StoredOr(s.names, uid));
            var r := PrettyName(s, uid);
            && r != []
            && (handle != [] ==> r == HandleLink(handle))
            && (handle == [] && (name == [] || name == NoName) ==> r == "ID " + uid)
            && (handle == [] && name != [] && name != NoName ==> r == name)
  {
  }

  /** A uid with neither a handle nor a name on record shows as "ID <uid>". */
  lemma PrettyNameUnknown(s: Snapshot, uid: string)
    requires uid !in s.usernames && uid !in s.names
    ensures PrettyName(s, uid) == "ID " + uid
  {
    TrimEmptyIff("");
  }

  /** `pretty_name` on a profile as `record_event` stores it: a stripped handle and a stripped, non-empty name. */
  lemma PrettyNameStored(s: Snapshot, uid: string, handle: string, name: string)
    requires uid in s.usernames && s.usernames[uid] == handle && Trim(handle) == handle
    requires uid in s.names && s.names[uid] == name && Trim(name) == name && name != []
    ensures PrettyName(s, uid) ==
              if handle != [] then HandleLink(handle)
              else if name == NoName then "ID " + uid
              else name
  {
  }

  /** After `record_event`, `pretty_name` shows the sender as their latest message described them. */
  lemma PrettyNameAfterRecord(s: Snapshot, sender: Sender, kind: string, day: string)
    ensures var p := ProfileOf(sender);
            var r := RecordEvent(s, p, kind, day);
            PrettyName(r, p.uid) ==
              if p.handle != [] then HandleLink(p.handle)
              else if p.name == NoName then "ID " + p.uid
              else p.name
  {
    var p := ProfileOf(sender);
    ProfileTrimmed(sender);
    RecordEventSender(s, p, kind, day);
    PrettyNameStored(RecordEvent(s, p, kind, day), p.uid, p.handle, p.name);
  }
}
