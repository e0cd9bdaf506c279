/**
 * `StatsManager`: the process-wide usage statistics, updated in place on every handled
 * message. The `stats` field is the `self.stats` dict, held as a `Snapshot`; every method
 * changes it step by step as the Python code does, and states the result as a function of
 * the old value.
 */
module StatsStore {
  import opened Wrappers
  import opened Snapshots
  import Dates
  import Direction

  class StatsManager {
    /** The keys of `type_ru`: the media kinds `by_type` is seeded with. */
    const typeKinds: set<string>

    /** `self.stats`. */
    var stats: Snapshot

    /**
     * `StatsManager(path, type_ru)`: the defaults, then `load()` with `stored` standing
     * for what `stats.json` parsed to (`None` when the file is missing, unreadable or not
     * a JSON object).
     */
    constructor (typeRu: map<string, string>, stored: Option<Stored>)
      ensures typeKinds == typeRu.Keys
      ensures stats == Snapshots.Load(typeRu.Keys, stored)
    {
      typeKinds := typeRu.Keys;
      stats := Defaults(typeRu.Keys);
      new;
      Load(stored);
    }

    /** `load()`: `self.stats.update(loaded)` when the file held an object, then `_ensure_defaults()`. */
    method Load(stored: Option<Stored>)
      modifies this
      ensures stats == WithDefaults(if stored.Some? then Overlay(old(stats), stored.value) else old(stats), typeKinds)
    {
      if stored.Some? {
        stats := Overlay(stats, stored.value);
      }
      EnsureDefaults();
    }

    /** `for k in keys: d.setdefault(k, 0)`, one key at a time. */
    static method SetDefaults(d: Counts, keys: set<string>) returns (r: Counts)
      ensures r == Backfill(d, keys)
    {
      r := d;
      var pending := keys;
      while pending != {}
        invariant pending <= keys
        invariant r == Backfill(d, keys - pending)
        decreases pending
      {
        var k :| k in pending;
        if k !in r {
          r := r[k := 0];
        }
        pending := pending - {k};
      }
    }

    /** `_ensure_defaults()`. */
    method EnsureDefaults()
      modifies this
      ensures stats == WithDefaults(old(stats), typeKinds)
    {
      var byType := SetDefaults(stats.byType, SeededKinds(typeKinds));
      stats := stats.(byType := byType);
      var translations := SetDefaults(stats.translations, Direction.Directions);
      stats := stats.(translations := translations);
    }

    /**
     * `record_event(message, kind)` on the UTC day `today`. `ok` is false when Python
     * raises `KeyError` at today's bucket; the store then holds the partial update.
     */
    method RecordEvent(sender: Sender, kind: string, today: Dates.Date) returns (ok: bool)
      requires Dates.IsClockDate(today)
      modifies this
      ensures ok == BucketUsable(old(stats), Dates.FormatDate(today))
      ensures stats == Snapshots.RecordEvent(old(stats), ProfileOf(sender), kind, Dates.FormatDate(today))
    {
      ok := Record(ProfileOf(sender), kind, Dates.FormatDate(today));
    }

    /**
     * The body of `record_event` once the sender's uid, stripped username and display name
     * (`p`) and the day string are known: every counter first, then the day's bucket.
     */
    method Record(p: Profile, kind: string, day: string) returns (ok: bool)
      modifies this
      ensures ok == BucketUsable(old(stats), day)
      ensures stats == Snapshots.RecordEvent(old(stats), p, kind, day)
    {
      stats := stats.(messagesTotal := stats.messagesTotal + 1);
      stats := stats.(byType := Bump(stats.byType, kind));
      stats := stats.(users := Bump(stats.users, p.uid));
      stats := stats.(usernames := stats.usernames[p.uid := p.handle]);
      stats := stats.(names := stats.names[p.uid := p.name]);
      if day !in stats.daily {
        stats := stats.(daily := stats.daily[day := map[UsersKey := map[]]]);
      }
      var bucket := stats.daily[day];
      if UsersKey !in bucket {
        return false;
      }
      stats := stats.(daily := stats.daily[day := bucket[UsersKey := Bump(bucket[UsersKey], p.uid)]]);
      return true;
    }

    /** `record_translation(direction)`. */
    method RecordTranslation(direction: string)
      modifies this
      ensures stats == Snapshots.RecordTranslation(old(stats), direction)
    {
      stats := stats.(translations := stats.translations[direction := Get(stats.translations, direction) + 1]);
    }

    /**
     * `unique_users_in_range(days)` with `today` the current UTC date: visits every
     * bucket once and collects the uids of those dated inside the window.
     */
    method UniqueUsersInRange(today: Dates.Date, days: int) returns (n: nat)
      requires Dates.IsValid(today)
      ensures n == Snapshots.UniqueUsersInRange(stats, Dates.Ordinal(today), days)
    {
      if days <= 0 {
        return 0;
      }
      var uniq := CollectWindow(stats.daily, Dates.Ordinal(today) - (days - 1), Dates.Ordinal(today));
      return |uniq|;
    }

    /** The `for day_str, payload in daily.items()` loop: the uids of every bucket dated from `lo` through `hi`. */
    static method CollectWindow(daily: map<string, Bucket>, lo: int, hi: int) returns (uniq: set<string>)
      ensures uniq == WindowUsers(daily, daily.Keys, lo, hi)
    {
      uniq := {};
      var pending := daily.Keys;
      ghost var visited: set<string> := {};
      while pending != {}
        invariant pending !! visited && pending + visited == daily.Keys
        invariant uniq == WindowUsers(daily, visited, lo, hi)
        decreases pending
      {
        var key :| key in pending;
        WindowUsersStep(daily, visited, key, lo, hi);
        if InWindow(key, lo, hi) {
          uniq := uniq + UsersOf(daily[key]).Keys;
        }
        visited := visited + {key};
        pending := pending - {key};
      }
    }
  }
}
