/**
 * The per-user daily upload quota of `FileUploadLimiter`. Each user id maps to
 * the list of `(timestamp, count)` uploads of the last 24 hours; every access
 * first prunes the list, and a request is accepted only when the pruned sum
 * plus the requested count stays within the daily maximum.
 *
 * Time is an integer number of microseconds, passed in as `now`: one call sees
 * one instant.
 */
module UploadQuota {
  import opened Wrappers
  import opened Text

  /** `timedelta(hours=24)` in microseconds. */
  const Window: int := 24 * 60 * 60 * 1000000

  /** The limit and the remaining count reported when limiting is switched off. */
  const UnlimitedCount: int := 999

  /** The error raised when an enabled limiter gets an empty user id. */
  const UserIdRequired: string := "user_id is required (pass IP for anonymous users)"

  /** One accepted upload: when it happened and how many files it carried. */
  datatype Entry = Entry(ts: int, count: int)

  function Max0(n: int): (m: int)
    ensures m >= 0 && m >= n && (m == 0 || m == n)
  {
    if n < 0 then 0 else n
  }

  /** `_clean_old_entries` on one list: keep the entries younger than 24 hours, in order. */
  function Prune(entries: seq<Entry>, now: int): (kept: seq<Entry>)
    ensures |kept| <= |entries|
    ensures forall i :: 0 <= i < |kept| ==> kept[i] in entries && kept[i].ts > now - Window
    decreases |entries|
  {
    if entries == [] then []
    else (if entries[0].ts > now - Window then [entries[0]] else []) + Prune(entries[1..], now)
  }

  /** `sum(count for _, count in entries)`. */
  function Used(entries: seq<Entry>): int
    decreases |entries|
  {
    if entries == [] then 0 else entries[0].count + Used(entries[1..])
  }

  /** `min(ts for ts, _ in entries)`. */
  function Oldest(entries: seq<Entry>): (oldest: int)
    requires entries != []
    ensures exists i :: 0 <= i < |entries| && entries[i].ts == oldest
    ensures forall i :: 0 <= i < |entries| ==> oldest <= entries[i].ts
    decreases |entries|
  {
    if |entries| == 1 then entries[0].ts
    else
      var rest := Oldest(entries[1..]);
      assert forall i :: 1 <= i < |entries| ==> entries[i] == entries[1..][i - 1];
      if entries[0].ts <= rest then entries[0].ts else rest
  }

  predicate NonNegativeCounts(entries: seq<Entry>) {
    forall i :: 0 <= i < |entries| ==> entries[i].count >= 0
  }

  /** The dictionaries the limiter returns. */
  datatype Report =
    | Unlimited(filesUploadedToday: int, maxFilesPerDay: int, remaining: int)
    | Rejected(filesUploadedToday: int, maxFilesPerDay: int, remaining: int, requested: int, resetAt: int)
    | Accepted(filesUploadedToday: int, maxFilesPerDay: int, remaining: int)
    | Usage(userId: string, filesUploadedToday: int, maxFilesPerDay: int, remaining: int)
  {
    /** The `allowed` key, which is also the boolean `check_and_increment` returns beside the dictionary. */
    predicate Allowed()
      requires !Usage?
    {
      !Rejected?
    }

    /** The `message` key. */
    function Message(): (m: string)
      requires !Usage?
      ensures m != []
    {
      match this
      case Unlimited(_, _, _) => "Unlimited (rate limiting disabled)"
      case Rejected(_, _, remaining, requested, _) =>
        "Cannot upload " + IntToString(requested) + " files. Only " + IntToString(remaining) + " remaining today."
      case Accepted(_, _, remaining) => IntToString(remaining) + " file(s) remaining today"
    }
  }

  /** `_unlimited_response`: allowed, nothing uploaded, 999 of 999 remaining. */
  const UnlimitedResponse: Report := Unlimited(0, UnlimitedCount, UnlimitedCount)

  /** The verdict of `check_and_increment` for an enabled limiter, given the user's list before pruning. */
  function Decide(entries: seq<Entry>, maxFiles: int, fileCount: int, now: int): (r: Report)
    ensures r.Rejected? || r.Accepted?
    ensures r.Rejected? <==> Used(Prune(entries, now)) + fileCount > maxFiles
    ensures r.Rejected? ==>
      var kept := Prune(entries, now);
      && r.filesUploadedToday == Used(kept)
      && r.maxFilesPerDay == maxFiles
      && r.remaining == Max0(maxFiles - Used(kept))
      && r.requested == fileCount
      && (kept == [] ==> r.resetAt == now + Window)
      && (kept != [] ==> (exists i :: 0 <= i < |kept| && r.resetAt == kept[i].ts + Window)
                         && forall i :: 0 <= i < |kept| ==> r.resetAt <= kept[i].ts + Window)
    ensures r.Accepted? ==>
      var used := Used(Prune(entries, now));
      && r.filesUploadedToday == used + fileCount
      && r.maxFilesPerDay == maxFiles
      && r.remaining == Max0(maxFiles - used) - fileCount
  {
    var kept := Prune(entries, now);
    var total := Used(kept);
    var remaining := Max0(maxFiles - total);
    if total + fileCount > maxFiles then
      var oldest := if kept != [] then Oldest(kept) else now;
      Rejected(total, maxFiles, remaining, fileCount, oldest + Window)
    else
      Accepted(total + fileCount, maxFiles, remaining - fileCount)
  }

  /** The user's list after `check_and_increment`: pruned, plus the new entry when accepted. */
  function AfterCheck(entries: seq<Entry>, maxFiles: int, fileCount: int, now: int): (after: seq<Entry>)
    ensures Decide(entries, maxFiles, fileCount, now).Rejected? ==> after == Prune(entries, now)
    ensures |after| <= |entries| + 1
  {
    var kept := Prune(entries, now);
    if Decide(entries, maxFiles, fileCount, now).Accepted? then kept + [Entry(now, fileCount)] else kept
  }

  /** Pruning keeps exactly the entries younger than 24 hours: one exactly 24 hours old is evicted. */
  lemma {:induction false} PruneKeepsExactly(entries: seq<Entry>, now: int, e: Entry)
    ensures e in Prune(entries, now) <==> e in entries && e.ts > now - Window
    decreases |entries|
  {
    if entries != [] {
      PruneKeepsExactly(entries[1..], now, e);
      assert entries == [entries[0]] + entries[1..];
    }
  }

  /** Pruning works piecewise, so it keeps the surviving entries in their original order. */
  lemma {:induction false} PruneConcat(a: seq<Entry>, b: seq<Entry>, now: int)
    ensures Prune(a + b, now) == Prune(a, now) + Prune(b, now)
    decreases |a|
  {
    if a == [] {
      assert a + b == b;
    } else {
      assert (a + b)[1..] == a[1..] + b;
      PruneConcat(a[1..], b, now);
    }
  }

  /** Pruning at `t` and then at a later `t2` is pruning at `t2`; in particular pruning is idempotent. */
  lemma {:induction false} PruneLater(entries: seq<Entry>, t: int, t2: int)
    requires t <= t2
    ensures Prune(Prune(entries, t), t2) == Prune(entries, t2)
    decreases |entries|
  {
    if entries != [] {
      PruneLater(entries[1..], t, t2);
      var head := if entries[0].ts > t - Window then [entries[0]] else [];
      PruneConcat(head, Prune(entries[1..], t), t2);
    }
  }

  /** The sum works piecewise. */
  lemma {:induction false} UsedConcat(a: seq<Entry>, b: seq<Entry>)
    ensures Used(a + b) == Used(a) + Used(b)
    decreases |a|
  {
    if a == [] {
      assert a + b == b;
    } else {
      assert (a + b)[1..] == a[1..] + b;
      UsedConcat(a[1..], b);
    }
  }

  /** With non-negative counts, pruning never raises the sum, and what it keeps has non-negative counts. */
  lemma {:induction false} UsedPruneMonotone(entries: seq<Entry>, now: int)
    requires NonNegativeCounts(entries)
    ensures Used(Prune(entries, now)) <= Used(entries)
    ensures NonNegativeCounts(Prune(entries, now))
    decreases |entries|
  {
    if entries != [] {
      assert NonNegativeCounts(entries[1..]) by {
        forall i | 0 <= i < |entries[1..]| ensures entries[1..][i].count >= 0 {
          assert entries[1..][i] == entries[i + 1];
        }
      }
      UsedPruneMonotone(entries[1..], now);
      var head := if entries[0].ts > now - Window then [entries[0]] else [];
      UsedConcat(head, Prune(entries[1..], now));
    }
  }

  /** An acceptance appends the one entry `(now, file_count)` at the end of the pruned list, and stays within the maximum. */
  lemma AcceptanceAppends(entries: seq<Entry>, maxFiles: int, fileCount: int, now: int)
    requires Decide(entries, maxFiles, fileCount, now).Accepted?
    ensures var kept := Prune(entries, now);
      && AfterCheck(entries, maxFiles, fileCount, now) == kept + [Entry(now, fileCount)]
      && Used(AfterCheck(entries, maxFiles, fileCount, now)) <= maxFiles
  {
    var kept := Prune(entries, now);
    UsedConcat(kept, [Entry(now, fileCount)]);
  }

  /**
   * The window invariant of one user's list: counts are non-negative and sum to at
   * most the maximum (or to zero when the maximum is negative).
   */
  predicate WithinQuota(entries: seq<Entry>, maxFiles: int) {
    NonNegativeCounts(entries) && Used(entries) <= Max0(maxFiles)
  }

  /** A call with a non-negative count keeps the window invariant of the user's list. */
  lemma {:induction false} CheckKeepsQuota(entries: seq<Entry>, maxFiles: int, fileCount: int, now: int)
    requires WithinQuota(entries, maxFiles) && fileCount >= 0
    ensures WithinQuota(AfterCheck(entries, maxFiles, fileCount, now), maxFiles)
  {
    var kept := Prune(entries, now);
    UsedPruneMonotone(entries, now);
    if Decide(entries, maxFiles, fileCount, now).Accepted? {
      AcceptanceAppends(entries, maxFiles, fileCount, now);
      var after := kept + [Entry(now, fileCount)];
      forall i | 0 <= i < |after| ensures after[i].count >= 0 {
        if i < |kept| { assert after[i] == kept[i]; }
      }
    }
  }

  /** Pruning alone keeps the window invariant. */
  lemma PruneKeepsQuota(entries: seq<Entry>, maxFiles: int, now: int)
    requires WithinQuota(entries, maxFiles)
    ensures WithinQuota(Prune(entries, now), maxFiles)
  {
    UsedPruneMonotone(entries, now);
  }

  /** The window invariant for every user of a limiter's map. */
  predicate AllWithinQuota(userFiles: map<string, seq<Entry>>, maxFiles: int) {
    forall u :: u in userFiles ==> WithinQuota(userFiles[u], maxFiles)
  }

  /** Replacing one user's list by a list within the quota keeps the invariant of the map. */
  lemma UpdateKeepsQuota(userFiles: map<string, seq<Entry>>, userId: string, entries: seq<Entry>, maxFiles: int)
    requires AllWithinQuota(userFiles, maxFiles) && WithinQuota(entries, maxFiles)
    ensures AllWithinQuota(userFiles[userId := entries], maxFiles)
  {
  }

  /** Per-user daily upload limiter; `userFiles` plays the part of the `defaultdict(list)`. */
  class FileUploadLimiter {
    const maxFiles: int
    const enabled: bool
    var userFiles: map<string, seq<Entry>>

    /** The window invariant for every user. */
    predicate Valid()
      reads this
    {
      AllWithinQuota(userFiles, maxFiles)
    }

    /** `FileUploadLimiter(max_files_per_day, enabled)`; the source's defaults are 3 and `True`. */
    constructor (maxFilesPerDay: int, enabled: bool)
      ensures maxFiles == maxFilesPerDay && this.enabled == enabled
      ensures userFiles == map[]
      ensures Valid()
    {
      maxFiles := maxFilesPerDay;
      this.enabled := enabled;
      userFiles := map[];
    }

    /** `self.user_files[user_id]` of a `defaultdict(list)`: a missing user has the empty list. */
    function Entries(userId: string): seq<Entry>
      reads this
    {
      if userId in userFiles then userFiles[userId] else []
    }

    /** `_clean_old_entries`: replace the user's list by its pruned version; nothing else changes. */
    method CleanOldEntries(userId: string, now: int)
      modifies this
      ensures userFiles == old(userFiles)[userId := Prune(old(Entries(userId)), now)]
      ensures old(Valid()) ==> Valid()
    {
      var kept := Prune(Entries(userId), now);
      if Valid() {
        PruneKeepsQuota(Entries(userId), maxFiles, now);
        UpdateKeepsQuota(userFiles, userId, kept, maxFiles);
      }
      userFiles := userFiles[userId := kept];
    }

    /**
     * `check_and_increment`: a disabled limiter allows without touching state; an empty
     * user id is an error; otherwise the list is pruned and the verdict of `Decide`
     * returned, with one `(now, file_count)` entry appended on acceptance.
     */
    method CheckAndIncrement(userId: string, fileCount: int, now: int) returns (r: Result<Report, string>)
      modifies this
      ensures !enabled ==> r == Success(UnlimitedResponse) && userFiles == old(userFiles)
      ensures enabled && userId == "" ==> r == Failure(UserIdRequired) && userFiles == old(userFiles)
      ensures enabled && userId != "" ==>
        && r == Success(Decide(old(Entries(userId)), maxFiles, fileCount, now))
        && userFiles == old(userFiles)[userId := AfterCheck(old(Entries(userId)), maxFiles, fileCount, now)]
      ensures old(Valid()) && fileCount >= 0 ==> Valid()
    {
      if !enabled {
        return Success(UnlimitedResponse);
      }
      if userId == "" {
        return Failure(UserIdRequired);
      }
      ghost var before := Entries(userId);
      ghost var wasValid := Valid();
      ghost var verdict := Decide(before, maxFiles, fileCount, now);
      ghost var after := AfterCheck(before, maxFiles, fileCount, now);
      CleanOldEntries(userId, now);
      var entries := userFiles[userId];
      assert entries == Prune(before, now);
      var total := Used(entries);
      var remaining := Max0(maxFiles - total);
      if total + fileCount > maxFiles {
        var oldest := if entries != [] then Oldest(entries) else now;
        r := Success(Rejected(total, maxFiles, remaining, fileCount, oldest + Window));
        assert r.value == verdict && after == entries;
      } else {
        userFiles := userFiles[userId := entries + [Entry(now, fileCount)]];
        var newRemaining := remaining - fileCount;
        r := Success(Accepted(total + fileCount, maxFiles, newRemaining));
        assert r.value == verdict && after == entries + [Entry(now, fileCount)];
      }
      if wasValid && fileCount >= 0 {
        CheckKeepsQuota(before, maxFiles, fileCount, now);
        UpdateKeepsQuota(old(userFiles), userId, after, maxFiles);
      }
    }

    /**
     * `get_stats`: a disabled limiter answers with the unlimited response; an empty user
     * id is an error; otherwise the list is pruned (never appended to) and its sum reported.
     */
    method GetStats(userId: string, now: int) returns (r: Result<Report, string>)
      modifies this
      ensures !enabled ==> r == Success(UnlimitedResponse) && userFiles == old(userFiles)
      ensures enabled && userId == "" ==> r == Failure(UserIdRequired) && userFiles == old(userFiles)
      ensures enabled && userId != "" ==>
        var kept := Prune(old(Entries(userId)), now);
        && r == Success(Usage(userId, Used(kept), maxFiles, Max0(maxFiles - Used(kept))))
        && userFiles == old(userFiles)[userId := kept]
      ensures old(Valid()) ==> Valid()
    {
      if !enabled {
        return Success(UnlimitedResponse);
      }
      if userId == "" {
        return Failure(UserIdRequired);
      }
      CleanOldEntries(userId, now);
      var total := Used(userFiles[userId]);
      return Success(Usage(userId, total, maxFiles, Max0(maxFiles - total)));
    }
  }
}
