/** The Cabrillo 3.0 export of the Texas QSO Party plugin: a header, one `QSO:`
    line per logged contact in the order the database returns them, and a
    trailer, each line ended by CR LF. */
module TqpCabrillo {
  import opened Wrappers
  import opened PyStr
  import opened PyValue
  import TexasQsoParty

  const Crlf := "\r\n"
  const StartOfLog := "START-OF-LOG: 3.0"
  const ContestLine := "CONTEST: " + TexasQsoParty.CabrilloName
  const EndOfLog := "END-OF-LOG:"

  /** The columns of one stored contact that its `QSO:` line uses, read as the
      exporter reads them: the timestamp, the frequency in kHz as an integer, the
      mode, both county exchanges, the station prefix and the worked call. */
  datatype QsoFields = QsoFields(
    ts: string, freq: int, mode: string, sent: string, rcvd: string, prefix: string, call: string)

  /** The frequency read when a contact has none: the text `"0"`. */
  const FreqDefault: Value := Str("0")

  /** A contact without a frequency is written with frequency 0. */
  lemma FreqDefaultIsZero()
    ensures ToInt(FreqDefault) == Ok(0)
  {
    ToIntOfStored(0, "0");
    assert IntToString(0) == "0";
  }

  /** Reads one stored contact; `None` when the exporter raises on it: a frequency
      `int()` refuses, or a text column holding NULL or a number. */
  function ReadContact(row: Row): (r: Option<QsoFields>)
    ensures r.None? <==>
      || NotText(row, "TS") || NotText(row, "Mode") || NotText(row, "SentCounty")
      || NotText(row, "RcvCounty") || NotText(row, "StationPrefix") || NotText(row, "Call")
      || ToInt(Get(row, "Freq", FreqDefault)).Raises?
    ensures r.Some? ==>
      && TextOf(row, "TS") == Some(r.value.ts) && TextOf(row, "Mode") == Some(r.value.mode)
      && TextOf(row, "SentCounty") == Some(r.value.sent) && TextOf(row, "RcvCounty") == Some(r.value.rcvd)
      && TextOf(row, "StationPrefix") == Some(r.value.prefix) && TextOf(row, "Call") == Some(r.value.call)
      && ToInt(Get(row, "Freq", FreqDefault)) == Ok(r.value.freq)
  {
    var ts := TextOf(row, "TS");
    var freq := ToInt(Get(row, "Freq", FreqDefault));
    var mode := TextOf(row, "Mode");
    var sent := TextOf(row, "SentCounty");
    var rcvd := TextOf(row, "RcvCounty");
    var prefix := TextOf(row, "StationPrefix");
    var call := TextOf(row, "Call");
    if ts.Some? && freq.Ok? && mode.Some? && sent.Some? && rcvd.Some? && prefix.Some? && call.Some?
    then Some(QsoFields(ts.value, freq.value, mode.value, sent.value, rcvd.value, prefix.value, call.value))
    else None
  }

  /** The date column: the first ten characters of the timestamp. */
  function DateOf(ts: string): string {
    Slice(ts, 0, 10)
  }

  /** The time column: hours and minutes of the timestamp, without the colon. */
  function TimeOf(ts: string): string {
    Slice(ts, 11, 13) + Slice(ts, 14, 16)
  }

  /** The mode column: upper-cased, with the sidebands `LSB` and `USB` written `PH`. */
  function ModeOf(mode: string): (m: string)
    ensures Upper(mode) in {"LSB", "USB"} ==> m == "PH"
    ensures Upper(mode) !in {"LSB", "USB"} ==> m == Upper(mode)
  {
    var m := Upper(mode);
    if m == "LSB" || m == "USB" then "PH" else m
  }

  /** Column `i` of a contact's `QSO:` line: the tag, the frequency right-justified
      to 5, mode, date, time, the station prefix and the call left-justified to 13,
      the sent and received counties left-justified to 6. */
  function Column(q: QsoFields, i: nat): string
    requires i < 9
  {
    if i == 0 then "QSO:"
    else if i == 1 then RJust(IntToString(q.freq), 5)
    else if i == 2 then ModeOf(q.mode)
    else if i == 3 then DateOf(q.ts)
    else if i == 4 then TimeOf(q.ts)
    else if i == 5 then LJust(q.prefix, 13)
    else if i == 6 then LJust(q.sent, 6)
    else if i == 7 then LJust(q.call, 13)
    else LJust(q.rcvd, 6)
  }

  /** The nine columns of a contact's `QSO:` line, in order. */
  function QsoColumns(q: QsoFields): (cols: seq<string>)
    ensures |cols| == 9
  {
    seq(9, i requires 0 <= i < 9 => Column(q, i))
  }

  /** One `QSO:` line without its terminator: the columns with one blank between each. */
  function QsoLine(q: QsoFields): string {
    Join(QsoColumns(q))
  }

  /** Nine columns joined by blanks, written out. */
  lemma JoinNine(c0: string, c1: string, c2: string, c3: string, c4: string,
                 c5: string, c6: string, c7: string, c8: string)
    ensures Join([c0, c1, c2, c3, c4, c5, c6, c7, c8])
         == c0 + " " + c1 + " " + c2 + " " + c3 + " " + c4 + " " + c5 + " " + c6 + " " + c7 + " " + c8
  {
    JoinAppend([c0], c1);
    assert [c0] + [c1] == [c0, c1];
    JoinAppend([c0, c1], c2);
    assert [c0, c1] + [c2] == [c0, c1, c2];
    JoinAppend([c0, c1, c2], c3);
    assert [c0, c1, c2] + [c3] == [c0, c1, c2, c3];
    JoinAppend([c0, c1, c2, c3], c4);
    assert [c0, c1, c2, c3] + [c4] == [c0, c1, c2, c3, c4];
    JoinAppend([c0, c1, c2, c3, c4], c5);
    assert [c0, c1, c2, c3, c4] + [c5] == [c0, c1, c2, c3, c4, c5];
    JoinAppend([c0, c1, c2, c3, c4, c5], c6);
    assert [c0, c1, c2, c3, c4, c5] + [c6] == [c0, c1, c2, c3, c4, c5, c6];
    JoinAppend([c0, c1, c2, c3, c4, c5, c6], c7);
    assert [c0, c1, c2, c3, c4, c5, c6] + [c7] == [c0, c1, c2, c3, c4, c5, c6, c7];
    JoinAppend([c0, c1, c2, c3, c4, c5, c6, c7], c8);
    assert [c0, c1, c2, c3, c4, c5, c6, c7] + [c8] == [c0, c1, c2, c3, c4, c5, c6, c7, c8];
  }

  /** A `QSO:` line written out, as the exporter's format string lays it out. */
  lemma QsoLineWritten(q: QsoFields)
    ensures QsoLine(q)
         == "QSO: " + RJust(IntToString(q.freq), 5) + " " + ModeOf(q.mode) + " " + DateOf(q.ts) + " "
            + TimeOf(q.ts) + " " + LJust(q.prefix, 13) + " " + LJust(q.sent, 6) + " "
            + LJust(q.call, 13) + " " + LJust(q.rcvd, 6)
  {
    var cols := QsoColumns(q);
    assert cols == [cols[0], cols[1], cols[2], cols[3], cols[4], cols[5], cols[6], cols[7], cols[8]];
    JoinNine(cols[0], cols[1], cols[2], cols[3], cols[4], cols[5], cols[6], cols[7], cols[8]);
    assert "QSO: " == "QSO:" + " ";
  }

  /** A timestamp as the logger stores it, `YYYY-MM-DD HH:MM:SS`. */
  predicate IsTimestamp(ts: string) {
    && |ts| == 19
    && (forall k :: 0 <= k < 19 && k !in {4, 7, 10, 13, 16} ==> IsDigit(ts[k]))
    && ts[4] == '-' && ts[7] == '-' && ts[10] == ' ' && ts[13] == ':' && ts[16] == ':'
  }

  /** From a stored timestamp the line takes the date as written and the hours
      and minutes as four digits; a shorter text is cut short, never padded. */
  lemma TimestampColumns(ts: string)
    ensures |DateOf(ts)| == Min(|ts|, 10) && DateOf(ts) == ts[..Min(|ts|, 10)]
    ensures |ts| >= 16 ==> TimeOf(ts) == [ts[11], ts[12], ts[14], ts[15]]
    ensures IsTimestamp(ts) ==> DateOf(ts) == ts[..10] && |TimeOf(ts)| == 4 && AllDigits(TimeOf(ts))
    ensures IsTimestamp(ts) ==> IsWord(DateOf(ts)) && IsWord(TimeOf(ts))
  {
  }

  /** The fields of a contact that each fill one blank-separated column. */
  predicate ColumnsAreWords(q: QsoFields) {
    IsTimestamp(q.ts) && IsWord(q.mode) && IsWord(q.prefix) && IsWord(q.sent) && IsWord(q.call) && IsWord(q.rcvd)
  }

  /** The mode column of a one-word mode is one word. */
  lemma ModeColumnIsWord(mode: string)
    requires IsWord(mode)
    ensures IsWord(ModeOf(mode))
  {
    UpperOfWord(mode);
  }

  /** The tag opening every contact line reads as one word. */
  lemma TagIsWord()
    ensures Words("QSO:") == ["QSO:"]
  {
    assert IsWord("QSO:");
    WordsOfWord("QSO:");
  }

  /** What a reader finds in column `i` of a `QSO:` line: the tag, the frequency
      as written by `str`, the mode column, date, time, station prefix, sent county,
      call and received county. */
  function ColumnWord(q: QsoFields, i: nat): string
    requires i < 9
  {
    if i == 0 then "QSO:"
    else if i == 1 then IntToString(q.freq)
    else if i == 2 then ModeOf(q.mode)
    else if i == 3 then DateOf(q.ts)
    else if i == 4 then TimeOf(q.ts)
    else if i == 5 then q.prefix
    else if i == 6 then q.sent
    else if i == 7 then q.call
    else q.rcvd
  }

  /** The words of a `QSO:` line's columns, in order. */
  function ColumnWords(q: QsoFields): (ws: seq<string>)
    ensures |ws| == 9
  {
    seq(9, i requires 0 <= i < 9 => ColumnWord(q, i))
  }

  /** Each column, padded as written, holds exactly its one word. */
  lemma ColumnHoldsWord(q: QsoFields, i: nat)
    requires ColumnsAreWords(q) && i < 9
    ensures Words(Column(q, i)) == [ColumnWord(q, i)]
  {
    if i == 0 {
      TagIsWord();
    } else if i == 1 {
      WordsOfRJust(IntToString(q.freq), 5);
    } else if i == 2 {
      ModeColumnIsWord(q.mode);
      WordsOfWord(ModeOf(q.mode));
    } else if i == 3 {
      TimestampColumns(q.ts);
      WordsOfWord(DateOf(q.ts));
    } else if i == 4 {
      TimestampColumns(q.ts);
      WordsOfWord(TimeOf(q.ts));
    } else if i == 5 {
      WordsOfLJust(q.prefix, 13);
    } else if i == 6 {
      WordsOfLJust(q.sent, 6);
    } else if i == 7 {
      WordsOfLJust(q.call, 13);
    } else {
      WordsOfLJust(q.rcvd, 6);
    }
  }

  /** Splitting a `QSO:` line at its blanks gives back, in order, the tag, the
      frequency, the mode column, date, time, station prefix, sent county, call
      and received county: the padding adds blanks only, and no column is cut. */
  lemma QsoLineColumns(q: QsoFields)
    requires ColumnsAreWords(q)
    ensures Words(QsoLine(q)) == ColumnWords(q)
  {
    forall i | 0 <= i < 9
      ensures Words(QsoColumns(q)[i]) == [ColumnWords(q)[i]]
    {
      ColumnHoldsWord(q, i);
    }
    WordsOfJoin(QsoColumns(q), ColumnWords(q));
  }

  /** The frequency column of a `QSO:` line parses back to the logged frequency. */
  lemma QsoLineFrequency(q: QsoFields)
    requires ColumnsAreWords(q)
    ensures |Words(QsoLine(q))| == 9
    ensures ParseInt(Words(QsoLine(q))[1]) == Some(q.freq)
  {
    QsoLineColumns(q);
    var columns := Words(QsoLine(q));
    assert columns[1] == IntToString(q.freq);
    IntToStringRoundTrip(q.freq);
  }

  /** The `QSO:` lines of the contacts, one per contact, in order. */
  function QsoLines(qs: seq<QsoFields>): seq<string> {
    seq(|qs|, i requires 0 <= i < |qs| => QsoLine(qs[i]))
  }

  /** Every stored contact can be read without raising. */
  predicate Readable(log: seq<Row>) {
    forall i :: 0 <= i < |log| ==> ReadContact(log[i]).Some?
  }

  /** The contacts of a readable log, one per row, in order. */
  function Contacts(log: seq<Row>): (qs: seq<QsoFields>)
    requires Readable(log)
    ensures |qs| == |log|
    ensures forall i :: 0 <= i < |log| ==> Some(qs[i]) == ReadContact(log[i])
  {
    if log == [] then [] else Contacts(log[..|log| - 1]) + [ReadContact(log[|log| - 1]).value]
  }

  /** The index of the first row the exporter raises on, or the length of the log. */
  function FirstUnreadable(log: seq<Row>): (k: nat)
    ensures k <= |log| && Readable(log[..k])
    ensures k < |log| ==> ReadContact(log[k]).None?
    ensures k == |log| <==> Readable(log)
  {
    if log == [] then 0
    else if ReadContact(log[0]).None? then 0
    else
      var k := FirstUnreadable(log[1..]);
      FirstUnreadableStep(log, k);
      1 + k
  }

  /** A readable first row moves the first unreadable row one further. */
  lemma FirstUnreadableStep(log: seq<Row>, k: nat)
    requires log != [] && ReadContact(log[0]).Some?
    requires k <= |log| - 1 && Readable(log[1..][..k])
    requires k < |log| - 1 ==> ReadContact(log[1..][k]).None?
    requires k == |log| - 1 <==> Readable(log[1..])
    ensures Readable(log[..k + 1])
    ensures k + 1 < |log| ==> ReadContact(log[k + 1]).None?
    ensures k + 1 == |log| <==> Readable(log)
  {
    var read := log[..k + 1];
    var rest := log[1..][..k];
    forall i | 0 <= i < k + 1
      ensures ReadContact(read[i]).Some?
    {
      if i > 0 {
        assert read[i] == rest[i - 1];
      }
    }
    if k + 1 == |log| {
      forall i | 0 <= i < |log|
        ensures ReadContact(log[i]).Some?
      {
        if i > 0 {
          assert log[i] == log[1..][i - 1];
        }
      }
    } else {
      assert log[k + 1] == log[1..][k];
    }
  }

  /** The lines of the whole log. */
  function LogLines(qs: seq<QsoFields>): seq<string> {
    [StartOfLog, ContestLine] + QsoLines(qs) + [EndOfLog]
  }

  /** Lines written one after another, each followed by CR LF. */
  function Terminated(lines: seq<string>): string {
    if lines == [] then [] else Terminated(lines[..|lines| - 1]) + lines[|lines| - 1] + Crlf
  }

  /** The text of the whole log. */
  function LogText(qs: seq<QsoFields>): string {
    Terminated(LogLines(qs))
  }

  lemma TerminatedAppend(lines: seq<string>, line: string)
    ensures Terminated(lines + [line]) == Terminated(lines) + line + Crlf
  {
    assert (lines + [line])[..|lines|] == lines;
  }

  lemma HeaderTerminated()
    ensures Terminated([StartOfLog, ContestLine]) == StartOfLog + Crlf + ContestLine + Crlf
  {
    TerminatedAppend([], StartOfLog);
    TerminatedAppend([StartOfLog], ContestLine);
    assert [] + [StartOfLog] == [StartOfLog];
    assert [StartOfLog] + [ContestLine] == [StartOfLog, ContestLine];
  }

  lemma QsoLinesAppend(qs: seq<QsoFields>, q: QsoFields)
    ensures QsoLines(qs + [q]) == QsoLines(qs) + [QsoLine(q)]
  {
  }

  /** Writing one line first, then the rest. */
  lemma {:induction false} TerminatedCons(line: string, lines: seq<string>)
    ensures Terminated([line] + lines) == line + Crlf + Terminated(lines)
    decreases |lines|
  {
    if lines == [] {
      assert [line] + lines == [] + [line];
      TerminatedAppend([], line);
    } else {
      var init := lines[..|lines| - 1];
      var last := lines[|lines| - 1];
      assert lines == init + [last];
      assert [line] + lines == ([line] + init) + [last];
      TerminatedAppend([line] + init, last);
      TerminatedCons(line, init);
      TerminatedAppend(init, last);
      calc {
        Terminated([line] + lines);
        Terminated([line] + init) + last + Crlf;
        (line + Crlf + Terminated(init)) + last + Crlf;
        line + Crlf + (Terminated(init) + last + Crlf);
        line + Crlf + Terminated(lines);
      }
    }
  }

  /** Reads CR LF terminated text back into its lines. */
  function Lines(text: string): seq<string>
    decreases |text|
  {
    if text == [] then []
    else
      var n := RunLength(text, '\r');
      [text[..n]] + Lines(text[Min(n + 2, |text|)..])
  }

  /** A line holding no CR. */
  predicate NoCr(line: string) {
    forall k :: 0 <= k < |line| ==> line[k] != '\r'
  }

  /** A line written with its terminator is read back whole. */
  lemma LinesCons(line: string, rest: string)
    requires NoCr(line)
    ensures Lines(line + Crlf + rest) == [line] + Lines(rest)
  {
    var text := line + Crlf + rest;
    RunLengthOfRun(line, '\r', Crlf + rest);
    assert text == line + (Crlf + rest);
    assert text[..|line|] == line;
    assert text[|line| + 2..] == rest;
  }

  /** Lines without CR, written each with CR LF, read back as the same lines. */
  lemma {:induction false} LinesOfTerminated(lines: seq<string>)
    requires forall i :: 0 <= i < |lines| ==> NoCr(lines[i])
    ensures Lines(Terminated(lines)) == lines
    decreases |lines|
  {
    if lines != [] {
      TerminatedCons(lines[0], lines[1..]);
      assert lines == [lines[0]] + lines[1..];
      LinesCons(lines[0], Terminated(lines[1..]));
      LinesOfTerminated(lines[1..]);
    }
  }

  /** Blank-joined columns hold a CR only where a column does. */
  lemma {:induction false} JoinNoCr(cols: seq<string>)
    requires forall i :: 0 <= i < |cols| ==> NoCr(cols[i])
    ensures NoCr(Join(cols))
    decreases |cols|
  {
    if |cols| > 1 {
      JoinNoCr(cols[..|cols| - 1]);
    }
  }

  /** The logged text fields of a contact, none of which holds a CR. */
  predicate FieldsNoCr(q: QsoFields) {
    NoCr(q.ts) && NoCr(q.mode) && NoCr(q.prefix) && NoCr(q.sent) && NoCr(q.call) && NoCr(q.rcvd)
  }

  /** A column holds a CR only where a logged field does. */
  lemma ColumnNoCr(q: QsoFields, i: nat)
    requires FieldsNoCr(q) && i < 9
    ensures NoCr(Column(q, i))
  {
    if i == 0 {
      assert NoCr("QSO:");
    } else if i == 1 {
      IntToStringChars(q.freq);
      PaddedNoCr(IntToString(q.freq), 5);
    } else if i == 2 {
      ModeNoCr(q.mode);
    } else if i == 3 {
      SliceNoCr(q.ts, 0, 10);
    } else if i == 4 {
      SliceNoCr(q.ts, 11, 13);
      SliceNoCr(q.ts, 14, 16);
    } else if i == 5 {
      PaddedNoCr(q.prefix, 13);
    } else if i == 6 {
      PaddedNoCr(q.sent, 6);
    } else if i == 7 {
      PaddedNoCr(q.call, 13);
    } else if i == 8 {
      PaddedNoCr(q.rcvd, 6);
    }
  }

  /** The mode column holds a CR only where the logged mode does. */
  lemma ModeNoCr(mode: string)
    requires NoCr(mode)
    ensures NoCr(ModeOf(mode))
  {
    var u := Upper(mode);
    forall k | 0 <= k < |u|
      ensures u[k] != '\r'
    {
      assert u[k] == UpperChar(mode[k]);
    }
    assert NoCr("PH");
  }

  /** A slice holds a CR only where the text does. */
  lemma SliceNoCr(s: string, i: nat, j: nat)
    requires NoCr(s)
    ensures NoCr(Slice(s, i, j))
  {
    var r := Slice(s, i, j);
    forall k | 0 <= k < |r|
      ensures r[k] != '\r'
    {
      assert r[k] == s[i + k];
    }
  }

  /** Padding with blanks adds no CR. */
  lemma PaddedNoCr(s: string, width: nat)
    requires NoCr(s)
    ensures NoCr(LJust(s, width)) && NoCr(RJust(s, width))
  {
    var l := LJust(s, width);
    forall k | 0 <= k < |l|
      ensures l[k] != '\r'
    {
      if k < |s| {
        assert l[k] == l[..|s|][k];
      }
    }
    var r := RJust(s, width);
    var pad := |r| - |s|;
    forall k | 0 <= k < |r|
      ensures r[k] != '\r'
    {
      if pad <= k {
        assert r[k] == r[pad..][k - pad];
      }
    }
  }

  /** A `QSO:` line holds a CR only where a logged field does. */
  lemma QsoLineNoCr(q: QsoFields)
    requires FieldsNoCr(q)
    ensures NoCr(QsoLine(q))
  {
    var cols := QsoColumns(q);
    forall i | 0 <= i < 9
      ensures NoCr(cols[i])
    {
      ColumnNoCr(q, i);
    }
    JoinNoCr(cols);
  }

  /** The CR LF terminated text of a log reads back as its header, one `QSO:` line
      per contact in order, and its trailer. */
  lemma LogTextLines(qs: seq<QsoFields>)
    requires forall i :: 0 <= i < |qs| ==> FieldsNoCr(qs[i])
    ensures Lines(LogText(qs)) == LogLines(qs)
    ensures |Lines(LogText(qs))| == |qs| + 3
  {
    var lines := LogLines(qs);
    assert NoCr(StartOfLog) && NoCr(ContestLine) && NoCr(EndOfLog);
    forall i | 0 <= i < |lines|
      ensures NoCr(lines[i])
    {
      if 2 <= i < |qs| + 2 {
        assert lines[i] == QsoLine(qs[i - 2]);
        QsoLineNoCr(qs[i - 2]);
      }
    }
    LinesOfTerminated(lines);
  }

  /** One more readable row adds its contact at the end. */
  lemma ContactsExtend(log: seq<Row>, i: nat)
    requires i < |log| && Readable(log[..i]) && ReadContact(log[i]).Some?
    ensures Readable(log[..i + 1])
    ensures Contacts(log[..i + 1]) == Contacts(log[..i]) + [ReadContact(log[i]).value]
  {
    var prefix := log[..i + 1];
    var read := log[..i];
    forall j | 0 <= j < i + 1
      ensures ReadContact(prefix[j]).Some?
    {
      if j < i {
        assert prefix[j] == read[j];
      }
    }
    assert prefix[..i] == read;
    assert prefix[i] == log[i];
  }

  /** One more readable row adds its line at the end of what is written. */
  lemma WrittenExtend(log: seq<Row>, i: nat)
    requires i < |log| && Readable(log[..i]) && ReadContact(log[i]).Some?
    ensures Readable(log[..i + 1])
    ensures [StartOfLog, ContestLine] + QsoLines(Contacts(log[..i + 1]))
         == [StartOfLog, ContestLine] + QsoLines(Contacts(log[..i])) + [QsoLine(ReadContact(log[i]).value)]
  {
    ContactsExtend(log, i);
    QsoLinesAppend(Contacts(log[..i]), ReadContact(log[i]).value);
  }

  /** The loop stops at the first row it cannot read. */
  lemma FirstUnreadableAt(log: seq<Row>, i: nat)
    requires i < |log| && Readable(log[..i]) && ReadContact(log[i]).None?
    ensures FirstUnreadable(log) == i
  {
    var k := FirstUnreadable(log);
    forall j | 0 <= j < i
      ensures ReadContact(log[j]).Some?
    {
      assert log[..i][j] == log[j];
    }
    forall j | 0 <= j < k
      ensures ReadContact(log[j]).Some?
    {
      assert log[..k][j] == log[j];
    }
  }

  /** Formats one stored contact as its `QSO:` line, as the loop body of the
      exporter does; `None` when reading the contact raises. */
  method FormatContact(contact: Row) returns (line: Option<string>)
    ensures line.None? <==> ReadContact(contact).None?
    ensures line.Some? ==> line.value == QsoLine(ReadContact(contact).value)
  {
    var ts := TextOf(contact, "TS");
    var freq := ToInt(Get(contact, "Freq", FreqDefault));
    var mode := TextOf(contact, "Mode");
    var sent := TextOf(contact, "SentCounty");
    var rcvd := TextOf(contact, "RcvCounty");
    var prefix := TextOf(contact, "StationPrefix");
    var call := TextOf(contact, "Call");
    if ts.None? || freq.Raises? || mode.None? || sent.None? || rcvd.None? || prefix.None? || call.None? {
      return None;
    }
    var q := QsoFields(ts.value, freq.value, mode.value, sent.value, rcvd.value, prefix.value, call.value);
    ReadContactFields(contact, q);
    var text := FormatFields(q);
    line := Some(text);
  }

  /** A row whose columns all read back is read as those columns. */
  lemma ReadContactFields(contact: Row, q: QsoFields)
    requires TextOf(contact, "TS") == Some(q.ts) && ToInt(Get(contact, "Freq", FreqDefault)) == Ok(q.freq)
    requires TextOf(contact, "Mode") == Some(q.mode) && TextOf(contact, "SentCounty") == Some(q.sent)
    requires TextOf(contact, "RcvCounty") == Some(q.rcvd) && TextOf(contact, "StationPrefix") == Some(q.prefix)
    requires TextOf(contact, "Call") == Some(q.call)
    ensures ReadContact(contact) == Some(q)
  {
  }

  /** The columns of one contact read from the log, written as its `QSO:` line. */
  method FormatFields(q: QsoFields) returns (line: string)
    ensures line == QsoLine(q)
  {
    var date := Slice(q.ts, 0, 10);
    var time := Slice(q.ts, 11, 13) + Slice(q.ts, 14, 16);
    var freq := RJust(IntToString(q.freq), 5);
    var mode := Upper(q.mode);
    if mode == "LSB" || mode == "USB" {
      mode := "PH";
    }
    QsoLineWritten(q);
    line := "QSO: " + freq + " " + mode + " " + date + " " + time + " "
      + LJust(q.prefix, 13) + " " + LJust(q.sent, 6) + " "
      + LJust(q.call, 13) + " " + LJust(q.rcvd, 6);
  }

  /** Writes the Cabrillo log of the stored contacts, in order. Returns the text
      written and whether the export completed: it stops, with the header and the
      lines of the rows before it written, at the first row it raises on. */
  method WriteCabrillo(log: seq<Row>) returns (text: string, completed: bool)
    ensures completed <==> Readable(log)
    ensures completed ==> text == LogText(Contacts(log))
    ensures !completed ==>
      text == Terminated([StartOfLog, ContestLine] + QsoLines(Contacts(log[..FirstUnreadable(log)])))
  {
    text := StartOfLog + Crlf;
    text := text + ContestLine + Crlf;
    HeaderTerminated();
    var i := 0;
    while i < |log|
      invariant 0 <= i <= |log|
      invariant Readable(log[..i])
      invariant text == Terminated([StartOfLog, ContestLine] + QsoLines(Contacts(log[..i])))
    {
      var line := FormatContact(log[i]);
      if line.None? {
        FirstUnreadableAt(log, i);
        return text, false;
      }
      WrittenExtend(log, i);
      TerminatedAppend([StartOfLog, ContestLine] + QsoLines(Contacts(log[..i])), line.value);
      text := text + line.value + Crlf;
      i := i + 1;
    }
    assert log[..i] == log;
    TerminatedAppend([StartOfLog, ContestLine] + QsoLines(Contacts(log)), EndOfLog);
    text := text + EndOfLog + Crlf;
    completed := true;
  }
}
