/** One run of the monitor (`main`): classify the fetched balances, notify,
    record the reading and rebuild the period index and rolling window. The
    balance fetch, the clock and delivery are outside the model: the balances,
    their decimal texts, the current month and the time text arrive as
    parameters. */
module Monitor {
  import opened Text
  import opened Notification
  import opened Periods
  import opened Records

  const WarningTitle: string := "⚠️宿舍电量预警⚠️"
  const RoutineTitle: string := "🏠宿舍电量通报🏠"
  const WarningSuffix: string := "⚠️ 电量不足，请尽快充电！"
  const RoutineSuffix: string := "请及时关注电量，避免设备关闭。"

  /** The condition on which `main` sends the warning. */
  predicate LowBalance(lt: real, ac: real) {
    lt <= Threshold || ac <= Threshold
  }

  /** The title `main` passes to `notify_admin`. */
  function Title(lt: real, ac: real): (t: string)
    ensures t == WarningTitle <==> LowBalance(lt, ac)
    ensures t == WarningTitle || t == RoutineTitle
  {
    if LowBalance(lt, ac) then WarningTitle else RoutineTitle
  }

  /** The content `main` passes to `notify_admin`: the report followed by the
      warning or the routine closing sentence. */
  function Content(lt: real, ac: real, ltText: string, acText: string): string {
    FormatReport(lt, ac, ltText, acText) + (if LowBalance(lt, ac) then WarningSuffix else RoutineSuffix)
  }

  /** The ServerChan gate in `notify_admin` opens exactly when `main` chose the
      warning title, and then targets every non-empty key. */
  lemma ServerChanFollowsTitle(lt: real, ac: real, ltText: string, acText: string, keys: string)
    requires FloatText(ltText) && FloatText(acText)
    ensures Contains(Content(lt, ac, ltText, acText), Marker) <==> Title(lt, ac) == WarningTitle
    ensures ServerChanTargets(Content(lt, ac, ltText, acText), keys)
            == if Title(lt, ac) == WarningTitle then NonEmpty(Split(keys, ',')) else []
  {
    var report := FormatReport(lt, ac, ltText, acText);
    var suffix := if LowBalance(lt, ac) then WarningSuffix else RoutineSuffix;
    assert Content(lt, ac, ltText, acText) == report + suffix;
    if LowBalance(lt, ac) {
      LowReportWarns(lt, ac, ltText, acText);
      ContainsEither(report, suffix, Marker);
    } else {
      HighReportQuiet(lt, ac, ltText, acText);
      RoutineSuffixQuiet();
      assert Marker[0] !in report + suffix;
      NotContainsWithoutHead(report + suffix, Marker);
    }
  }

  /** The routine closing sentence holds not even the marker's first character. */
  lemma RoutineSuffixQuiet()
    ensures Marker[0] !in RoutineSuffix
  {
  }

  /** The notification half of `main`: the report, closed by the sentence and
      sent under the title that the balances call for. */
  method Announce(lt: real, ac: real, ltText: string, acText: string, keys: string) returns (posts: seq<Post>)
    ensures posts == AdminPosts(Title(lt, ac), Content(lt, ac, ltText, acText), keys)
  {
    var reportContent := FormatReport(lt, ac, ltText, acText);
    if lt <= Threshold || ac <= Threshold {
      reportContent := reportContent + WarningSuffix;
      posts := NotifyAdmin(WarningTitle, reportContent, keys);
    } else {
      reportContent := reportContent + RoutineSuffix;
      posts := NotifyAdmin(RoutineTitle, reportContent, keys);
    }
  }

  /** The recording half of `main`: the reading goes into the month file
      `period`, then the period index and the rolling window are rebuilt. */
  method RecordReading(dm: DataManager, lt: real, ac: real, period: string, time: string)
    returns (outcome: Outcome)
    modifies dm
    ensures dm.folderExists == old(dm.folderExists)
    ensures dm.store == if dm.folderExists && Recorded(old(dm.Load(period)), Reading(time, lt, ac)) != old(dm.Load(period))
                        then old(dm.store)[period := Recorded(old(dm.Load(period)), Reading(time, lt, ac))]
                        else old(dm.store)
    ensures dm.folderExists ==> dm.Load(period) == Recorded(old(dm.Load(period)), Reading(time, lt, ac))
    ensures outcome.Done? ==>
              dm.window == Window(Recorded(old(dm.Load(period)), Reading(time, lt, ac)), |dm.timeIndex| > 1,
                                  if |dm.timeIndex| > 1 then dm.Load(dm.timeIndex[1]) else [])
    ensures outcome.Failed? <==> !dm.folderExists || !AllStemsParse(dm.store.Keys)
    ensures outcome.Failed? ==> dm.timeIndex == old(dm.timeIndex) && dm.window == old(dm.window)
    ensures outcome.Done? ==> IsPeriodIndex(dm.store.Keys, dm.timeIndex)
    ensures old(dm.Deduplicated()) ==> dm.Deduplicated()
  {
    var latestRecord := Reading(time, lt, ac);
    var data := dm.RecordData(period, latestRecord);
    outcome := dm.ParseAndUpdateData(data);
  }

  /** `main` after the balance fetch, with one `DataManager` holding all its
      methods: notify, then record. The clock is read as `period`, the current
      month's key (what `strftime('%Y-%m')` gives, see `Periods.PeriodName`),
      and `time`, the reading's time text. */
  method Run(dm: DataManager, lt: real, ac: real, ltText: string, acText: string, keys: string,
             period: string, time: string)
    returns (posts: seq<Post>, outcome: Outcome)
    modifies dm
    ensures posts == AdminPosts(Title(lt, ac), Content(lt, ac, ltText, acText), keys)
    ensures dm.folderExists == old(dm.folderExists)
    ensures dm.store == if dm.folderExists && Recorded(old(dm.Load(period)), Reading(time, lt, ac)) != old(dm.Load(period))
                        then old(dm.store)[period := Recorded(old(dm.Load(period)), Reading(time, lt, ac))]
                        else old(dm.store)
    ensures dm.folderExists ==> dm.Load(period) == Recorded(old(dm.Load(period)), Reading(time, lt, ac))
    ensures outcome.Done? ==>
              dm.window == Window(Recorded(old(dm.Load(period)), Reading(time, lt, ac)), |dm.timeIndex| > 1,
                                  if |dm.timeIndex| > 1 then dm.Load(dm.timeIndex[1]) else [])
    ensures outcome.Failed? <==> !dm.folderExists || !AllStemsParse(dm.store.Keys)
    ensures outcome.Failed? ==> dm.timeIndex == old(dm.timeIndex) && dm.window == old(dm.window)
    ensures outcome.Done? ==> IsPeriodIndex(dm.store.Keys, dm.timeIndex)
    ensures old(dm.Deduplicated()) ==> dm.Deduplicated()
  {
    posts := Announce(lt, ac, ltText, acText, keys);
    outcome := RecordReading(dm, lt, ac, period, time);
  }

  /** The attributes the name `DataManager` has once index.py has run its class
      statements: the second statement rebinds the name, so only the methods it
      defines remain. */
  function AsWrittenDataManagerAttributes(): (attrs: set<string>)
    ensures "record_data" in attrs && "get_cst_time_str" in attrs
  {
    {"get_cst_time_str", "record_data", "update_time_list", "parse_and_update_data"}
  }

  /** How `main` as written ends: it sends the notifications and then fails on
      the first attribute of `DataManager` it looks up that does not exist. */
  datatype AsWrittenEnd =
    | Completed(posts: seq<Post>)
    | MissingAttribute(posts: seq<Post>, name: string)

  /** `main` as written, after the balance fetch: the reading's time comes from
      `DataManager.get_shanghai_time_str`, and recording then loads and dumps
      through `DataManager.load_data_from_json` and `dump_data_into_json`. */
  function RunAsWritten(lt: real, ac: real, ltText: string, acText: string, keys: string): (e: AsWrittenEnd)
    ensures e.posts == AdminPosts(Title(lt, ac), Content(lt, ac, ltText, acText), keys)
  {
    var posts := AdminPosts(Title(lt, ac), Content(lt, ac, ltText, acText), keys);
    var attrs := AsWrittenDataManagerAttributes();
    if "get_shanghai_time_str" !in attrs then MissingAttribute(posts, "get_shanghai_time_str")
    else if "load_data_from_json" !in attrs then MissingAttribute(posts, "load_data_from_json")
    else if "dump_data_into_json" !in attrs then MissingAttribute(posts, "dump_data_into_json")
    else Completed(posts)
  }

  /** As written, every run notifies and then stops before anything is recorded;
      the helpers of the first class statement are gone as well. */
  lemma AsWrittenNeverRecords(lt: real, ac: real, ltText: string, acText: string, keys: string)
    ensures RunAsWritten(lt, ac, ltText, acText, keys)
            == MissingAttribute(AdminPosts(Title(lt, ac), Content(lt, ac, ltText, acText), keys),
                                "get_shanghai_time_str")
    ensures "load_data_from_json" !in AsWrittenDataManagerAttributes()
    ensures "dump_data_into_json" !in AsWrittenDataManagerAttributes()
  {
  }
}
