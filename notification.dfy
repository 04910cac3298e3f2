/** The report text and the notification decisions of `NotificationManager`:
    classifying a balance, escaping the numbers for Telegram MarkdownV2,
    composing the report, and choosing which channels receive it. */
module Notification {
  import opened Text

  /** Balances at or below this are a warning (`THRESHOLD`). */
  const Threshold: real := 5.0
  /** Balances above this are plentiful (`EXCELLENT_THRESHOLD`). */
  const ExcellentThreshold: real := 100.0

  /** The three bands `get_status` distinguishes. */
  datatype Band = Plenty | Fair | Warning

  /** `get_status`: the band a balance falls into. Each threshold belongs to the
      band below it. */
  function Status(balance: real): (b: Band)
    ensures b == Plenty <==> balance > ExcellentThreshold
    ensures b == Fair <==> Threshold < balance <= ExcellentThreshold
    ensures b == Warning <==> balance <= Threshold
  {
    if balance > ExcellentThreshold then Plenty
    else if balance > Threshold then Fair
    else Warning
  }

  /** Position of a band in the order warning < fair < plenty. */
  function Rank(b: Band): nat {
    match b
    case Warning => 0
    case Fair => 1
    case Plenty => 2
  }

  /** A larger balance is never classified in a lower band. */
  lemma StatusMonotone(x: real, y: real)
    requires x <= y
    ensures Rank(Status(x)) <= Rank(Status(y))
  {
  }

  /** The warning marker that gates the ServerChan channel. */
  const Marker: string := "⚠️警告"

  /** The label `get_status` returns for each band. */
  function Label(b: Band): (s: string)
    ensures |s| > 0
  {
    match b
    case Plenty => "充足"
    case Fair => "还行"
    case Warning => Marker
  }

  /** Only the warning label carries the warning marker. */
  lemma LabelMarker(b: Band)
    ensures Contains(Label(b), Marker) <==> b == Warning
  {
    ContainsIff(Label(b), Marker);
    if b == Warning {
      assert OccursAt(Label(b), Marker, 0);
    } else {
      NotContainsWithoutHead(Label(b), Marker);
    }
  }

  /** `str.replace(".", "\\.")`: every dot is preceded by a backslash. */
  function Escape(s: string): (r: string)
    ensures |r| == |s| + Count(s, '.')
    ensures Count(r, '.') == Count(s, '.')
  {
    if s == [] then []
    else
      var rest := Escape(s[1..]);
      var head := if s[0] == '.' then "\\." else [s[0]];
      CountConcat(head, rest, '.');
      head + rest
  }

  /** Every dot of an escaped string is immediately preceded by a backslash. */
  lemma {:induction false} EscapedDots(s: string)
    ensures forall i :: 0 <= i < |Escape(s)| && Escape(s)[i] == '.' ==> i > 0 && Escape(s)[i - 1] == '\\'
  {
    if s != [] {
      EscapedDots(s[1..]);
      var rest := Escape(s[1..]);
      var head := if s[0] == '.' then "\\." else [s[0]];
      assert Escape(s) == head + rest;
      forall i | 0 <= i < |head + rest| && (head + rest)[i] == '.'
        ensures i > 0 && (head + rest)[i - 1] == '\\'
      {
        if i >= |head| {
          assert (head + rest)[i] == rest[i - |head|];
          if i - |head| > 0 {
            assert (head + rest)[i - 1] == rest[i - 1 - |head|];
          }
        }
      }
    }
  }

  /** Escaping only adds backslashes: every other character comes from the input. */
  lemma {:induction false} EscapeChars(s: string)
    ensures forall c :: c in Escape(s) ==> c in s || c == '\\'
  {
    if s != [] {
      EscapeChars(s[1..]);
      var head := if s[0] == '.' then "\\." else [s[0]];
      assert Escape(s) == head + Escape(s[1..]);
      assert forall c :: c in s[1..] ==> c in s;
    }
  }

  /** The reader's side of the escaping: each `\.` stands for a dot. */
  function Unescape(t: string): (s: string)
    decreases |t|
  {
    if t == [] then []
    else if |t| >= 2 && t[0] == '\\' && t[1] == '.' then "." + Unescape(t[2..])
    else [t[0]] + Unescape(t[1..])
  }

  /** Escaped text never starts with a dot. */
  lemma EscapeHead(s: string)
    ensures Escape(s) != [] ==> Escape(s)[0] != '.'
  {
    if s != [] {
      var head := if s[0] == '.' then "\\." else [s[0]];
      assert Escape(s) == head + Escape(s[1..]);
      assert Escape(s)[0] == head[0];
    }
  }

  lemma UnescapeDot(rest: string)
    ensures Unescape("\\." + rest) == "." + Unescape(rest)
  {
    assert ("\\." + rest)[2..] == rest;
  }

  lemma UnescapeOther(c: char, rest: string)
    requires c != '.'
    requires rest != [] ==> rest[0] != '.'
    ensures Unescape([c] + rest) == [c] + Unescape(rest)
  {
    assert ([c] + rest)[1..] == rest;
  }

  /** Escaping loses nothing: unescaping gives back the original text, even
      when that text already held backslashes. */
  lemma {:induction false} UnescapeEscape(s: string)
    ensures Unescape(Escape(s)) == s
  {
    if s != [] {
      var rest := Escape(s[1..]);
      UnescapeEscape(s[1..]);
      EscapeHead(s[1..]);
      if s[0] == '.' {
        assert Escape(s) == "\\." + rest;
        UnescapeDot(rest);
      } else {
        assert Escape(s) == [s[0]] + rest;
        UnescapeOther(s[0], rest);
      }
      assert [s[0]] + s[1..] == s;
    }
  }

  /** The characters `str(float)` can produce: digits, sign, point, exponent,
      `inf` and `nan`. */
  predicate FloatText(s: string) {
    forall c :: c in s ==> c in FloatChars
  }

  const FloatChars: string := "0123456789.-+einfa"

  /** The unit and the opening parenthesis before a band label, and the
      closing parenthesis after it. */
  const UnitOpen: string := " 度（"
  const UnitClose: string := "）"

  /** One line of the report: a fixed prefix, the escaped numeric text, the
      unit and the band label in full-width parentheses, then the line end. */
  function ReportLine(prefix: string, text: string, b: Band, tail: string): string {
    prefix + Escape(text) + UnitOpen + Label(b) + UnitClose + tail
  }

  /** `format_balance_report`: the lighting line, then the air-conditioning line
      followed by a blank line. */
  function FormatReport(lt: real, ac: real, ltText: string, acText: string): string {
    ReportLine(LightingPrefix, ltText, Status(lt), "\n")
    + ReportLine(CoolingPrefix, acText, Status(ac), "\n\n")
  }

  /** The fixed beginnings of the lighting and the air-conditioning lines. */
  const LightingPrefix: string := "💡 照明剩余电量："
  const CoolingPrefix: string := "❄️ 空调剩余电量："

  /** The fixed parts of the report hold not even the marker's first character. */
  lemma FixedPartsQuiet()
    ensures Marker[0] !in LightingPrefix && Marker[0] !in CoolingPrefix
    ensures Marker[0] !in "\n" && Marker[0] !in "\n\n"
  {
  }

  /** Escaped numeric text never contains the first character of the marker. */
  lemma EscapedHasNoMarkerHead(text: string)
    requires FloatText(text)
    ensures Marker[0] !in Escape(text)
  {
    EscapeChars(text);
    MarkerHeadNotFloatChar();
  }

  /** The marker starts with a character `str(float)` never produces. */
  lemma MarkerHeadNotFloatChar()
    ensures Marker[0] !in FloatChars && Marker[0] != '\\'
  {
  }

  /** The unit and the parentheses hold not even the marker's first character. */
  lemma UnitQuiet()
    ensures Marker[0] !in UnitOpen && Marker[0] !in UnitClose
  {
  }

  /** A report line carries the marker when its band is the warning band, and
      otherwise holds not even the marker's first character. */
  lemma LineMarker(prefix: string, text: string, b: Band, tail: string)
    requires FloatText(text) && Marker[0] !in prefix && Marker[0] !in tail
    ensures b == Warning ==> Contains(ReportLine(prefix, text, b, tail), Marker)
    ensures b != Warning ==> Marker[0] !in ReportLine(prefix, text, b, tail)
  {
    var before := prefix + Escape(text) + UnitOpen;
    var after := UnitClose + tail;
    UnitQuiet();
    assert ReportLine(prefix, text, b, tail) == before + Label(b) + after;
    EscapedHasNoMarkerHead(text);
    if b == Warning {
      LabelMarker(b);
      ContainsInfix(before, Label(b), after, Marker);
    }
  }

  /** A low balance puts the warning marker into the report. */
  lemma LowReportWarns(lt: real, ac: real, ltText: string, acText: string)
    requires FloatText(ltText) && FloatText(acText)
    requires lt <= Threshold || ac <= Threshold
    ensures Contains(FormatReport(lt, ac, ltText, acText), Marker)
  {
    var line1 := ReportLine(LightingPrefix, ltText, Status(lt), "\n");
    var line2 := ReportLine(CoolingPrefix, acText, Status(ac), "\n\n");
    FixedPartsQuiet();
    LineMarker(LightingPrefix, ltText, Status(lt), "\n");
    LineMarker(CoolingPrefix, acText, Status(ac), "\n\n");
    ContainsEither(line1, line2, Marker);
  }

  /** Without a low balance the report holds not even the marker's first character. */
  lemma HighReportQuiet(lt: real, ac: real, ltText: string, acText: string)
    requires FloatText(ltText) && FloatText(acText)
    requires lt > Threshold && ac > Threshold
    ensures Marker[0] !in FormatReport(lt, ac, ltText, acText)
  {
    FixedPartsQuiet();
    LineMarker(LightingPrefix, ltText, Status(lt), "\n");
    LineMarker(CoolingPrefix, acText, Status(ac), "\n\n");
  }

  /** The report carries the warning marker exactly when one of the balances
      is at or below the threshold. */
  lemma ReportWarns(lt: real, ac: real, ltText: string, acText: string)
    requires FloatText(ltText) && FloatText(acText)
    ensures Contains(FormatReport(lt, ac, ltText, acText), Marker) <==> lt <= Threshold || ac <= Threshold
  {
    if lt <= Threshold || ac <= Threshold {
      LowReportWarns(lt, ac, ltText, acText);
    } else {
      HighReportQuiet(lt, ac, ltText, acText);
      NotContainsWithoutHead(FormatReport(lt, ac, ltText, acText), Marker);
    }
  }

  /** The ServerChan keys `notify_admin` posts to: none without the marker in
      the content, otherwise the non-empty pieces of the comma-separated keys. */
  function ServerChanTargets(content: string, keys: string): (r: seq<string>)
    ensures !Contains(content, Marker) ==> r == []
    ensures forall k :: k in r ==> k != "" && ',' !in k
    ensures Contains(content, Marker) ==> Concat(r) == Remove(keys, ',')
  {
    SplitPieces(keys, ',');
    SplitConcat(keys, ',');
    NonEmptyMembers(Split(keys, ','));
    if Contains(content, Marker) then NonEmpty(Split(keys, ',')) else []
  }

  /** With the marker present, a key is targeted exactly when it is a non-empty
      piece of the configured list; a list without empty pieces is used as is. */
  lemma TargetsArePieces(content: string, keys: string)
    requires Contains(content, Marker)
    ensures forall k :: k in ServerChanTargets(content, keys) <==> k in Split(keys, ',') && k != ""
    ensures (forall p :: p in Split(keys, ',') ==> p != "") ==> ServerChanTargets(content, keys) == Split(keys, ',')
  {
    NonEmptyMembers(Split(keys, ','));
    if forall p :: p in Split(keys, ',') ==> p != "" {
      NonEmptyNoEmpty(Split(keys, ','));
    }
  }

  /** One outbound request. */
  datatype Post =
    | ServerChan(key: string, title: string, desp: string)
    | Telegram(text: string)

  /** The `text` field `notify_telegram` sends: the title in bold, a blank line,
      then the content. */
  function TelegramText(title: string, content: string): (t: string)
    ensures |t| == |title| + |content| + 4
    ensures t[0] == '*' && t[1..|title| + 1] == title && t[|title| + 1] == '*'
    ensures t[|title| + 2..|title| + 4] == "\n\n"
    ensures t[|title| + 4..] == content
  {
    "*" + title + "*\n\n" + content
  }

  /** One ServerChan request per target key, in order, all with the same title and body. */
  function ServerChanPosts(targets: seq<string>, title: string, content: string): (r: seq<Post>)
    ensures |r| == |targets|
    ensures forall i :: 0 <= i < |r| ==> r[i] == ServerChan(targets[i], title, content)
  {
    seq(|targets|, i requires 0 <= i < |targets| => ServerChan(targets[i], title, content))
  }

  /** The requests `notify_admin` issues, in order: one ServerChan request per
      target key, then the Telegram request. */
  function AdminPosts(title: string, content: string, keys: string): (r: seq<Post>)
    ensures |r| == |ServerChanTargets(content, keys)| + 1
    ensures r[|r| - 1] == Telegram(TelegramText(title, content))
    ensures forall i :: 0 <= i < |r| - 1 ==> r[i] == ServerChan(ServerChanTargets(content, keys)[i], title, content)
  {
    ServerChanPosts(ServerChanTargets(content, keys), title, content) + [Telegram(TelegramText(title, content))]
  }

  /** `notify_admin`: walks the comma-separated keys when the content carries the
      marker, posting to each non-empty one, then posts to Telegram. */
  method NotifyAdmin(title: string, content: string, keys: string) returns (posts: seq<Post>)
    ensures posts == AdminPosts(title, content, keys)
  {
    posts := [];
    if Contains(content, Marker) {
      var pieces := Split(keys, ',');
      for i := 0 to |pieces|
        invariant posts == ServerChanPosts(NonEmpty(pieces[..i]), title, content)
      {
        NonEmptyAppend(pieces[..i], [pieces[i]]);
        assert pieces[..i + 1] == pieces[..i] + [pieces[i]];
        if pieces[i] != "" {
          posts := posts + [ServerChan(pieces[i], title, content)];
        }
      }
      assert pieces[..|pieces|] == pieces;
    }
    posts := posts + [Telegram(TelegramText(title, content))];
  }
}
