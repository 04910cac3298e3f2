/** The record store of `DataManager`: monthly reading files with
    consecutive-duplicate suppression, the period index and the rolling window
    of the latest readings. */
module Records {
  import opened Periods

  /** One stored reading: when it was taken and the two balances. */
  datatype Reading = Reading(time: string, lt: real, ac: real)

  /** Two readings count as the same when both balances agree; the time is ignored. */
  predicate SameBalances(a: Reading, b: Reading) {
    a.lt == b.lt && a.ac == b.ac
  }

  /** No two neighbouring readings of a monthly file repeat the same balances. */
  ghost predicate NoAdjacentDuplicates(s: seq<Reading>) {
    forall i :: 0 < i < |s| ==> !SameBalances(s[i - 1], s[i])
  }

  /** The list `record_data` returns for a loaded month `stored`: `data` is
      appended unless the last stored reading already has its balances. */
  function Recorded(stored: seq<Reading>, data: Reading): (r: seq<Reading>)
    ensures |r| == |stored| <==> |stored| > 0 && SameBalances(stored[|stored| - 1], data)
    ensures |r| == |stored| || |r| == |stored| + 1
    ensures r[..|stored|] == stored
    ensures |r| == |stored| + 1 ==> r[|stored|] == data
    ensures |r| > 0 && SameBalances(r[|r| - 1], data)
  {
    if |stored| > 0 && SameBalances(stored[|stored| - 1], data) then stored
    else stored + [data]
  }

  /** Recording keeps a month free of neighbouring duplicates. */
  lemma RecordedKeepsNoDuplicates(stored: seq<Reading>, data: Reading)
    requires NoAdjacentDuplicates(stored)
    ensures NoAdjacentDuplicates(Recorded(stored, data))
  {
    var r := Recorded(stored, data);
    forall i | 0 < i < |r| ensures !SameBalances(r[i - 1], r[i]) {
      if i < |stored| {
        assert r[i - 1] == stored[i - 1] && r[i] == stored[i];
      } else {
        assert |r| == |stored| + 1 && r[i - 1] == stored[|stored| - 1];
      }
    }
  }

  /** Recording the same balances a second time changes nothing. */
  lemma RecordedIdempotent(stored: seq<Reading>, first: Reading, again: Reading)
    requires SameBalances(first, again)
    ensures Recorded(Recorded(stored, first), again) == Recorded(stored, first)
  {
  }

  /** `MAX_DISPLAY_NUM`: the rolling window holds at most this many readings. */
  const MaxDisplay: nat := 30

  function Min(a: int, b: int): int {
    if a <= b then a else b
  }

  /** Python's `s[-k:]` for `k >= 0`: the last `k` elements, all of `s` when `k`
      exceeds its length, and — since `-0` is `0` — all of `s` when `k` is 0. */
  function PySuffix(s: seq<Reading>, k: nat): (r: seq<Reading>)
    ensures |r| == if k == 0 then |s| else Min(k, |s|)
    ensures r == s[|s| - |r|..]
  {
    if k == 0 || k >= |s| then s else s[|s| - k..]
  }

  /** The readings `parse_and_update_data` puts in front of the current month:
      when the month has fewer than `MaxDisplay` readings and a previous period
      exists, as many of the previous period's latest readings as fit. */
  function Borrowed(current: seq<Reading>, hasPrevious: bool, previous: seq<Reading>): (b: seq<Reading>)
    ensures |b| == if |current| < MaxDisplay && hasPrevious then Min(MaxDisplay - |current|, |previous|) else 0
    ensures b == previous[|previous| - |b|..]
  {
    if |current| < MaxDisplay && hasPrevious
    then PySuffix(previous, Min(MaxDisplay - |current|, |previous|))
    else []
  }

  /** The rolling window `parse_and_update_data` stores: the last `MaxDisplay`
      readings of the borrowed readings followed by the current month. */
  function Window(current: seq<Reading>, hasPrevious: bool, previous: seq<Reading>): (w: seq<Reading>)
    ensures |w| <= MaxDisplay
  {
    PySuffix(Borrowed(current, hasPrevious, previous) + current, MaxDisplay)
  }

  /** The window holds the latest readings available to it: as many as there
      are, up to `MaxDisplay`; it ends with the current month's latest readings;
      a month that has `MaxDisplay` readings alone fills it; otherwise the
      current month is kept whole and preceded by the previous period's tail. */
  lemma WindowShape(current: seq<Reading>, hasPrevious: bool, previous: seq<Reading>)
    ensures var w := Window(current, hasPrevious, previous);
            var n := |current|;
            && |w| == Min(MaxDisplay, n + (if hasPrevious then |previous| else 0))
            && w[|w| - Min(MaxDisplay, n)..] == current[n - Min(MaxDisplay, n)..]
            && (n >= MaxDisplay ==> w == current[n - MaxDisplay..])
            && (n < MaxDisplay ==> |w| >= n && w == previous[|previous| - (|w| - n)..] + current)
  {
    var b := Borrowed(current, hasPrevious, previous);
    var all := b + current;
    var w := Window(current, hasPrevious, previous);
    var n := |current|;
    assert w == all[|all| - |w|..];
    if n >= MaxDisplay {
      assert b == [];
      assert all == current;
    } else {
      assert |all| <= MaxDisplay;
      assert w == all;
      assert |b| == |w| - n;
      assert w == previous[|previous| - (|w| - n)..] + current;
      assert w[|b|..] == current;
    }
  }

  /** What can go wrong while rebuilding the period index. */
  datatype StoreError =
    | FolderMissing                 // the data folder does not exist
    | UnparsableStem(stem: string)  // a selected file name is not a month

  datatype Result<T> = Ok(value: T) | Err(error: StoreError)

  /** Outcome of a step that produces nothing but may fail. */
  datatype Outcome = Done | Failed(error: StoreError)

  /** Every file the glob selects names a month. */
  ghost predicate AllStemsParse(stems: set<string>) {
    forall s :: s in stems && MatchesGlob(s) ==> ParsePeriod(s).Some?
  }

  /** The files `DataManager` reads and writes. `store` maps each JSON file stem
      of the data folder to its readings (a file that does not parse as JSON is
      held as the empty list, which is how it is read back); `window` is
      its `last_30_records.json`; `timeIndex` is `time.json`, which lies beside
      the data folder rather than in it. */
  class DataManager {
    var folderExists: bool
    var store: map<string, seq<Reading>>
    var timeIndex: seq<string>
    var window: seq<Reading>

    constructor (folderExists: bool, store: map<string, seq<Reading>>, timeIndex: seq<string>, window: seq<Reading>)
      ensures this.folderExists == folderExists && this.store == store
      ensures this.timeIndex == timeIndex && this.window == window
    {
      this.folderExists := folderExists;
      this.store := store;
      this.timeIndex := timeIndex;
      this.window := window;
    }

    /** `load_data_from_json` on a file of the data folder: a missing file
        reads as no readings. */
    function Load(stem: string): seq<Reading>
      reads this`folderExists, this`store
    {
      if folderExists && stem in store then store[stem] else []
    }

    /** Every monthly file is free of neighbouring duplicates. */
    ghost predicate Deduplicated()
      reads this`store
    {
      forall k :: k in store ==> NoAdjacentDuplicates(store[k])
    }

    /** `record_data` for the month file `period`: returns the month's readings
        after recording `data` and rewrites the file only when `data` was
        appended; a write into a missing folder is lost. */
    method RecordData(period: string, data: Reading) returns (result: seq<Reading>)
      modifies this`store
      ensures result == Recorded(old(Load(period)), data)
      ensures store == if folderExists && result != old(Load(period))
                       then old(store)[period := result] else old(store)
      ensures folderExists ==> period in store && Load(period) == result
      ensures old(Deduplicated()) ==> Deduplicated()
    {
      var stored := Load(period);
      if |stored| > 0 && SameBalances(stored[|stored| - 1], data) {
        return stored;
      }
      result := stored + [data];
      if folderExists {
        store := store[period := result];
        if old(Deduplicated()) {
          RecordedKeepsNoDuplicates(stored, data);
        }
      }
    }

    /** `update_time_list`: lists the month files of the data folder, sorts them
        newest first, writes the list to `time.json` and returns it. Fails when
        the folder is missing or a selected file name is not a month. */
    method UpdateTimeList() returns (r: Result<seq<string>>)
      modifies this`timeIndex
      ensures !folderExists ==> r == Err(FolderMissing)
      ensures r.Err? ==> (r.error.FolderMissing? <==> !folderExists)
      ensures r.Ok? <==> folderExists && AllStemsParse(store.Keys)
      ensures r.Err? && r.error.UnparsableStem? ==>
                r.error.stem in store && MatchesGlob(r.error.stem) && ParsePeriod(r.error.stem).None?
      ensures r.Ok? ==> IsPeriodIndex(store.Keys, r.value) && timeIndex == r.value
      ensures r.Err? ==> timeIndex == old(timeIndex)
    {
      if !folderExists {
        return Err(FolderMissing);
      }
      // The glob: every selected stem once, in the unspecified listing order.
      var listing: seq<string> := [];
      var remaining := store.Keys;
      while remaining != {}
        invariant remaining <= store.Keys
        invariant forall s :: s in listing <==> s in store.Keys - remaining && MatchesGlob(s)
        invariant forall i, j :: 0 <= i < j < |listing| ==> listing[i] != listing[j]
        decreases remaining
      {
        var stem :| stem in remaining;
        if MatchesGlob(stem) {
          listing := listing + [stem];
        }
        remaining := remaining - {stem};
      }
      // `sorted` computes the key of every stem in listing order; the first
      // stem that `strptime` rejects raises.
      for i := 0 to |listing|
        invariant forall j :: 0 <= j < i ==> ParsePeriod(listing[j]).Some?
      {
        if ParsePeriod(listing[i]).None? {
          assert listing[i] in listing;
          return Err(UnparsableStem(listing[i]));
        }
      }
      assert forall s :: s in listing ==> ParsePeriod(s).Some?;
      SortGivesIndex(store.Keys, listing);
      timeIndex := SortDescending(Value, listing);
      r := Ok(timeIndex);
    }

    /** `parse_and_update_data`: rebuilds the period index, then stores the
        rolling window of `existing` (the current month after recording),
        borrowing from the second entry of the index. */
    method ParseAndUpdateData(existing: seq<Reading>) returns (outcome: Outcome)
      modifies this`timeIndex, this`window
      ensures outcome.Failed? <==> !folderExists || !AllStemsParse(store.Keys)
      ensures outcome.Failed? ==> timeIndex == old(timeIndex) && window == old(window)
      ensures outcome.Done? ==> IsPeriodIndex(store.Keys, timeIndex)
      ensures outcome.Done? ==>
                window == Window(existing, |timeIndex| > 1, if |timeIndex| > 1 then Load(timeIndex[1]) else [])
    {
      var r := UpdateTimeList();
      if r.Err? {
        return Failed(r.error);
      }
      var timeFileList := r.value;
      var data := existing;
      if |data| < MaxDisplay && |timeFileList| > 1 {
        var recordsToRetrieve := Min(MaxDisplay - |data|, |Load(timeFileList[1])|);
        data := PySuffix(Load(timeFileList[1]), recordsToRetrieve) + data;
      }
      window := PySuffix(data, MaxDisplay);
      outcome := Done;
    }
  }
}
