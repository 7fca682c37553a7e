/** Rules of the Texas QSO Party plugin: the county-code table, the received-exchange
    auto-fill, the fields saved with each contact, and the scoring. */
module TexasQsoParty {
  import opened Wrappers
  import opened PyStr
  import opened PyValue

  /** The contest tag written on the Cabrillo `CONTEST:` line. */
  const CabrilloName := "TQP"

  /** Texas county codes and county names. The plugin ships this abbreviated
      placeholder list; the keys are upper-case codes. */
  const CountyCodes: map<string, string> := map[
    "AND" := "Anderson", "ANDR" := "Andrews", "ANG" := "Angelina", "ARC" := "Archer",
    "ARM" := "Armstrong", "ATAS" := "Atascosa", "AUS" := "Austin",
    "TRV" := "Travis", "WIL" := "Williamson", "HAY" := "Hays", "DAL" := "Dallas"
  ]

  /** How an exchange field's text is saved and validated: the typed text with the
      whitespace around it cut off, upper-cased. */
  function ExchangeField(text: string): (r: string)
    ensures Trimmed(r)
    ensures Upper(r) == r
  {
    var s := Strip(text);
    UpperIdempotent(s);
    UpperKeepsTrimmed(s);
    Upper(s)
  }

  /** Every key of the table is already a saved exchange: trimmed and upper-case. */
  lemma CountyCodesAreNormalized()
    ensures forall c :: c in CountyCodes ==> ExchangeField(c) == c && IsWord(c)
  {
    forall c | c in CountyCodes
      ensures ExchangeField(c) == c && IsWord(c)
    {
      assert c in CountyCodes.Keys;
      assert IsCapitals(c);
      CapitalsAreSaved(c);
    }
  }

  /** A non-empty run of the capital letters `A` to `Z`. */
  predicate IsCapitals(s: string) {
    |s| > 0 && forall k :: 0 <= k < |s| ==> 'A' <= s[k] <= 'Z'
  }

  lemma CapitalsAreSaved(s: string)
    requires IsCapitals(s)
    ensures ExchangeField(s) == s && IsWord(s)
  {
    assert Trimmed(s);
    assert Upper(s) == s;
  }

  /** The Rcvd text offered for a history exchange `exch` (already upper-cased):
      the code and the county's name in parentheses when `exch` is a county code,
      otherwise `exch` alone, always followed by a blank so typing can go on. */
  function AutoFillText(exch: string): string {
    if exch in CountyCodes then exch + " (" + CountyCodes[exch] + ") " else exch + " "
  }

  /** The Rcvd text after a history lookup that found exchange `exch1`, when the
      operator had typed `rcvd`: filled in only if the exchange is non-empty and
      the field is empty, and then starting with the upper-cased exchange. */
  function HistoryFill(exch1: string, rcvd: string): (r: string)
    ensures r != rcvd <==> rcvd == [] && exch1 != []
    ensures rcvd == [] && exch1 != [] ==>
      |r| > |exch1| && r[..|exch1|] == Upper(exch1) && r[|r| - 1] == ' '
    ensures rcvd == [] && exch1 != [] && Upper(exch1) in CountyCodes ==>
      r == Upper(exch1) + " (" + CountyCodes[Upper(exch1)] + ") "
    ensures rcvd == [] && exch1 != [] && Upper(exch1) !in CountyCodes ==> r == Upper(exch1) + " "
  {
    var exch := Upper(exch1);
    if exch != [] && rcvd == [] then AutoFillText(exch) else rcvd
  }

  /** The history label after the typed Rcvd text was checked with no history
      found: it names the county exactly when the saved text is a county code. */
  function CountyInfo(rcvd: string, info: string): (r: string)
    ensures ExchangeField(rcvd) in CountyCodes ==> r == "TX County: " + CountyCodes[ExchangeField(rcvd)]
    ensures ExchangeField(rcvd) !in CountyCodes ==> r == info
  {
    var exch := ExchangeField(rcvd);
    if exch in CountyCodes then "TX County: " + CountyCodes[exch] else info
  }

  /** The history row does not hold NULL in the notes column, which the plugin
      shows in the history label. */
  predicate NotesNotNull(result: Option<Row>) {
    Found(result) ==> Get(result.value, "UserText", Str("")) != Null
  }

  /** The columns `set_contact_vars` writes into the contact record. */
  const SavedKeys: set<string> := {"SNT", "RCV", "SentCounty", "RcvCounty", "NR", "IsMultiplier1"}

  /** The contact record after saving the exchange: the reports as typed, the
      sent and received counties (the caller normalizes them with
      `ExchangeField`), the received one also as `NR`, and the multiplier flag;
      every other column is kept. */
  function SavedContact(contact: Row, snt: string, rcv: string, sentCounty: string, rcvdCounty: string,
                        flag: int): (r: Row)
    ensures forall k :: k in r <==> k in contact || k in SavedKeys
    ensures forall k :: k in contact && k !in SavedKeys ==> r[k] == contact[k]
    ensures r["SNT"] == Str(snt) && r["RCV"] == Str(rcv)
    ensures r["SentCounty"] == Str(sentCounty)
    ensures r["RcvCounty"] == Str(rcvdCounty) && r["NR"] == Str(rcvdCounty)
    ensures r["IsMultiplier1"] == Int(flag)
  {
    contact["SNT" := Str(snt)]["RCV" := Str(rcv)]["SentCounty" := Str(sentCounty)]
      ["RcvCounty" := Str(rcvdCounty)]["NR" := Str(rcvdCounty)]["IsMultiplier1" := Int(flag)]
  }

  /** What a call-history check leaves behind: the exception it raised, if any,
      the Rcvd field's text and the history label's text. */
  datatype HistoryOutcome = HistoryOutcome(raised: Option<Exception>, rcvd: string, info: string)

  /** The call-history check on the history row found (if any), the Rcvd text `rcvd`
      and the label text `info`. With a row, numeric notes make the label raise
      `TypeError` before anything changes; otherwise it shows the notes, and
      raises `AttributeError` exactly when the exchange is not text. It changes the
      Rcvd field only by the auto-fill of an empty field; and, with no row, it
      changes the label only to name a county the typed text codes. */
  function CallHistoryCheck(result: Option<Row>, rcvd: string, info: string): (o: HistoryOutcome)
    requires NotesNotNull(result)
    ensures o.raised.Some? <==>
      Found(result) && (NotText(result.value, "UserText") || TextOf(result.value, "Exch1").None?)
    ensures o.raised.Some? ==> o.rcvd == rcvd
    ensures Found(result) && NotText(result.value, "UserText") ==> o.raised == Some(TypeError) && o.info == info
    ensures Found(result) && !NotText(result.value, "UserText") ==>
      o.info == TextOf(result.value, "UserText").value
    ensures Found(result) && !NotText(result.value, "UserText") && TextOf(result.value, "Exch1").None? ==>
      o.raised == Some(AttributeError)
    ensures Found(result) && o.raised.None? ==> o.rcvd == HistoryFill(TextOf(result.value, "Exch1").value, rcvd)
    ensures o.rcvd != rcvd ==> Found(result) && rcvd == []
    ensures !Found(result) ==> o.raised == None && o.rcvd == rcvd && o.info == CountyInfo(rcvd, info)
    ensures !Found(result) && o.info != info ==> ExchangeField(rcvd) in CountyCodes
  {
    if !Found(result) then HistoryOutcome(None, rcvd, CountyInfo(rcvd, info))
    else
      match TextOf(result.value, "UserText")
      case None => HistoryOutcome(Some(TypeError), rcvd, info)
      case Some(notes) =>
        match TextOf(result.value, "Exch1")
        case None => HistoryOutcome(Some(AttributeError), rcvd, notes)
        case Some(exch1) => HistoryOutcome(None, HistoryFill(exch1, rcvd), notes)
  }

  /** The multiplier flag saved with a contact: 1 exactly when the call-exists query
      returned a row whose `call_count` (0 when missing) is the integer 0. */
  function MultiplierFlag(result: Option<Row>): (m: int)
    ensures m == 0 || m == 1
    ensures m == 1 <==> Found(result) && Get(result.value, "call_count", Int(0)) == Int(0)
  {
    if Found(result) && Get(result.value, "call_count", Int(0)) == Int(0) then 1 else 0
  }

  /** The texts of the entry window's fields, and the contact record being logged. */
  class EntryForm {
    var callsign: string
    var sent: string
    var receive: string
    /** "Sent Cty/State" */
    var other1: string
    /** "Rcvd Cty/State" */
    var other2: string
    /** The label showing call-history notes and county names. */
    var historyInfo: string
    var contact: Row

    constructor ()
      ensures callsign == sent == receive == other1 == other2 == historyInfo == []
      ensures contact == map[]
    {
      callsign, sent, receive := [], [], [];
      other1, other2, historyInfo := [], [], [];
      contact := map[];
    }

    /** Looks the trimmed, upper-cased callsign up in the call history. With a
        history row, shows its notes and may auto-fill the Rcvd field, and does
        nothing else; with none, leaves the Rcvd field alone and names the county
        when the typed text is a county code. Numeric notes raise from the label
        and change nothing; a history exchange that is not text raises once the
        notes are shown, leaving the Rcvd field as it was. */
    method CheckCallHistory(callHistory: map<string, Row>) returns (raised: Option<Exception>)
      requires NotesNotNull(Lookup(callHistory, Upper(Strip(callsign))))
      modifies this`other2, this`historyInfo
      ensures var o := CallHistoryCheck(Lookup(callHistory, Upper(Strip(callsign))), old(other2), old(historyInfo));
        raised == o.raised && other2 == o.rcvd && historyInfo == o.info
    {
      var call := Upper(Strip(callsign));
      var result := Lookup(callHistory, call);
      if Found(result) {
        raised := ShowHistory(result.value);
        return;
      }
      ShowCounty();
      raised := None;
    }

    /** The history branch of `CheckCallHistory`: shows the notes of history row
        `row`, then fills an empty Rcvd field with its exchange. */
    method ShowHistory(row: Row) returns (raised: Option<Exception>)
      requires row != map[] && Get(row, "UserText", Str("")) != Null
      modifies this`other2, this`historyInfo
      ensures var o := CallHistoryCheck(Some(row), old(other2), old(historyInfo));
        raised == o.raised && other2 == o.rcvd && historyInfo == o.info
    {
      var notes := TextOf(row, "UserText");
      if notes.None? {
        return Some(TypeError);
      }
      historyInfo := notes.value;
      var exch1 := TextOf(row, "Exch1");
      if exch1.None? {
        return Some(AttributeError);
      }
      var exch := Upper(exch1.value);
      if exch != [] && other2 == [] {
        if exch in CountyCodes {
          other2 := exch + " (" + CountyCodes[exch] + ") ";
        } else {
          other2 := exch + " ";
        }
      }
      raised := None;
    }

    /** The branch of `CheckCallHistory` with no history: names the county when
        the typed Rcvd text is a county code. */
    method ShowCounty()
      modifies this`historyInfo
      ensures historyInfo == CountyInfo(other2, old(historyInfo))
    {
      var exch := Upper(Strip(other2));
      if exch in CountyCodes {
        historyInfo := "TX County: " + CountyCodes[exch];
      }
    }

    /** Saves the exchange fields into the contact record, as `SavedContact`
        does, with the multiplier flag from the call-exists query on the
        upper-cased call. */
    method SetContactVars(callExists: map<string, Row>)
      modifies this`contact
      ensures contact == SavedContact(old(contact), sent, receive, ExchangeField(other1), ExchangeField(other2),
                                      MultiplierFlag(Lookup(callExists, Upper(callsign))))
    {
      contact := contact["SNT" := Str(sent)];
      contact := contact["RCV" := Str(receive)];
      contact := contact["SentCounty" := Str(ExchangeField(other1))];
      contact := contact["RcvCounty" := Str(ExchangeField(other2))];
      contact := contact["NR" := Str(ExchangeField(other2))];
      var result := Lookup(callExists, Upper(callsign));
      contact := contact["IsMultiplier1" := Int(MultiplierFlag(result))];
    }
  }

  /** The points of one contact: none for a duplicate whatever its mode, two for
      CW and for mode `DIGI`, one for anything else. A stored mode that is not
      text makes `.upper()` raise, but only once the duplicate check has passed. */
  function Points(contactIsDupe: int, contact: Row): (r: Result<int>)
    ensures contactIsDupe > 0 ==> r == Ok(0)
    ensures r.Ok? ==> 0 <= r.value <= 2
    ensures contactIsDupe <= 0 ==> (r.Raises? <==> TextOf(contact, "Mode").None?)
    ensures contactIsDupe <= 0 && r.Ok? ==>
      r.value != 0 && (r.value == 2 <==> Upper(TextOf(contact, "Mode").value) in {"CW", "DIGI"})
  {
    if contactIsDupe > 0 then Ok(0)
    else
      match TextOf(contact, "Mode")
      case None => Raises(AttributeError)
      case Some(text) =>
        var mode := Upper(text);
        if mode == "CW" || mode == "DIGI" then Ok(2) else Ok(1)
  }

  /** The mode's letter case does not change the points. */
  lemma PointsIgnoreCase(contactIsDupe: int, contact: Row, mode: string)
    ensures Points(contactIsDupe, contact["Mode" := Str(Upper(mode))])
         == Points(contactIsDupe, contact["Mode" := Str(mode)])
  {
    UpperIdempotent(mode);
  }

  /** The rule compares against `DIGI`: a contact logged with mode `Digital` or
      `RTTY` scores like phone, and a contact without a mode scores like phone too. */
  lemma DigitalModesScoreOne()
    ensures Points(0, map["Mode" := Str("Digital")]) == Ok(1)
    ensures Points(0, map["Mode" := Str("RTTY")]) == Ok(1)
    ensures Points(0, map["Mode" := Str("digi")]) == Ok(2)
    ensures Points(0, map[]) == Ok(1)
  {
    assert Upper("Digital") == "DIGITAL";
    assert Upper("RTTY") == "RTTY";
    assert Upper("digi") == "DIGI";
    assert Upper("") == "";
  }

  /** `int(result.get(column, 0)) if result else 0`: an absent result or column
      counts 0, a stored number or numeral is read, anything else raises. */
  function CountColumn(result: Option<Row>, column: string): (r: Result<int>)
    ensures !Found(result) ==> r == Ok(0)
    ensures Found(result) && column !in result.value ==> r == Ok(0)
    ensures Found(result) && column in result.value ==> r == ToInt(result.value[column])
  {
    if Found(result) then ToInt(Get(result.value, column, Int(0))) else Ok(0)
  }

  /** The multiplier total shown: the `call_count` of the call-count query. */
  function ShowMults(result: Option<Row>): (r: Result<int>)
    ensures !Found(result) ==> r == Ok(0)
    ensures r.Raises? ==> Found(result) && "call_count" in result.value
  {
    CountColumn(result, "call_count")
  }

  /** The contact total shown: the `qsos` of the QSO-count query. */
  function ShowQso(result: Option<Row>): (r: Result<int>)
    ensures !Found(result) ==> r == Ok(0)
    ensures r.Raises? ==> Found(result) && "qsos" in result.value
  {
    CountColumn(result, "qsos")
  }

  /** Both totals read back a count the database stored as a number or as text. */
  lemma ShownCountsReadBack(n: int)
    ensures ShowMults(Some(map["call_count" := Int(n)])) == Ok(n)
    ensures ShowMults(Some(map["call_count" := Str(IntToString(n))])) == Ok(n)
    ensures ShowQso(Some(map["qsos" := Int(n)])) == Ok(n)
    ensures ShowQso(Some(map["qsos" := Str(IntToString(n))])) == Ok(n)
  {
    CountReadsBack("call_count", n);
    CountReadsBack("qsos", n);
  }

  lemma CountReadsBack(column: string, n: int)
    ensures CountColumn(Some(map[column := Int(n)]), column) == Ok(n)
    ensures CountColumn(Some(map[column := Str(IntToString(n))]), column) == Ok(n)
  {
    var a: Row := map[column := Int(n)];
    var b: Row := map[column := Str(IntToString(n))];
    assert column in a && column in b;
    assert Found(Some(a)) && Found(Some(b));
    IntToStringRoundTrip(n);
  }

  /** `int(result.get("Points", 0) or 0)`, with a failed conversion read as 0:
      a stored number or numeral gives its value, anything else 0. */
  function PointsTotal(row: Row): (p: int)
    ensures "Points" !in row ==> p == 0
    ensures "Points" in row && row["Points"].Int? ==> p == row["Points"].num
    ensures "Points" in row && row["Points"].Null? ==> p == 0
    ensures "Points" in row && row["Points"].Str? ==>
      p == (match ParseInt(row["Points"].text) case Some(n) => n case None => 0)
  {
    var v := Get(row, "Points", Int(0));
    var points := if Truthy(v) then v else Int(0);
    match ToInt(points)
    case Ok(n) => n
    case Raises(_) => 0
  }

  /** The claimed score: no score without a points row; otherwise the points
      total times the multiplier total. Only reading the multiplier total can
      fail, and then the score fails with it. */
  function CalcScore(pointsResult: Option<Row>, callCount: Option<Row>): (r: Result<int>)
    ensures !Found(pointsResult) ==> r == Ok(0)
    ensures Found(pointsResult) && ShowMults(callCount).Ok? ==>
      r == Ok(PointsTotal(pointsResult.value) * ShowMults(callCount).value)
    ensures r.Raises? <==> Found(pointsResult) && ShowMults(callCount).Raises?
  {
    if !Found(pointsResult) then Ok(0)
    else
      var points := PointsTotal(pointsResult.value);
      match ShowMults(callCount)
      case Ok(mults) => Ok(points * mults)
      case Raises(e) => Raises(e)
  }

  /** A points total the database stored as NULL or as text that is not a number
      scores 0 rather than failing. */
  lemma MalformedPointsScoreZero(callCount: Option<Row>, junk: string)
    requires ShowMults(callCount).Ok?
    requires ParseInt(junk).None?
    ensures CalcScore(Some(map["Points" := Null]), callCount) == Ok(0)
    ensures CalcScore(Some(map["Points" := Str(junk)]), callCount) == Ok(0)
    ensures CalcScore(Some(map["Points" := Int(0)]), callCount) == Ok(0)
  {
  }

  /** As written, an auto-filled county name is saved along with the code: a
      history exchange that is a county code, such as `trv`, fills an empty Rcvd
      field with `<code> (<name>) `, and saving the contact then stores
      `<code> (<NAME>)` as `RcvCounty` and `NR`: at least two words where the
      Cabrillo log expects one county code, and not what typing the exchange saves. */
  lemma AutoFilledCountySavedWithName(exch1: string)
    requires Upper(exch1) in CountyCodes
    ensures ExchangeField(HistoryFill(exch1, "")) == SavedFill(Upper(exch1), CountyCodes[Upper(exch1)])
    ensures |Words(ExchangeField(HistoryFill(exch1, "")))| >= 2
    ensures ExchangeField(HistoryFill(exch1, "")) != ExchangeField(exch1)
  {
    var e := Upper(exch1);
    assert HistoryFill(exch1, "") == AutoFillText(e);
    AutoFillSaved(e);
    CountyCodeIsCapitals(e);
    SavedFillWords(e, CountyCodes[e]);
    ExchangeFieldOfUpper(exch1);
    CapitalsAreSaved(e);
  }

  /** `<code> (<NAME>)` reads as the code and at least one more word. */
  lemma SavedFillWords(code: string, name: string)
    requires IsCapitals(code)
    ensures |Words(SavedFill(code, name))| >= 2
  {
    var rest := "(" + Upper(name) + ")";
    assert SavedFill(code, name) == code + " " + rest;
    CapitalsAreSaved(code);
    WordsAppend(code, rest);
    WordsOfWord(code);
    assert rest[0] == '(';
    assert Words(rest) != [];
  }

  /** The history exchange `trv` fills an empty Rcvd field with `TRV (Travis) `. */
  lemma TravisFilled()
    ensures HistoryFill("trv", "") == "TRV (Travis) "
  {
    assert Upper("trv") == "TRV";
  }

  /** A key of the county table is a run of capitals. */
  lemma CountyCodeIsCapitals(code: string)
    requires code in CountyCodes
    ensures IsCapitals(code)
  {
    assert code in CountyCodes.Keys;
  }

  /** The text `<code> (<name>)` that saving the auto-fill of a code stores. */
  function SavedFill(code: string, name: string): string {
    code + " (" + Upper(name) + ")"
  }

  /** Upper-casing `<code> (<name>)` upper-cases only the name. */
  lemma UpperOfFill(code: string, name: string)
    requires IsCapitals(code)
    ensures Upper(code + " (" + name + ")") == SavedFill(code, name)
  {
    var a := code + " (";
    assert Upper(a) == a by {
      assert forall k :: 0 <= k < |a| ==> UpperChar(a[k]) == a[k];
    }
    UpperAppend(a, name);
    UpperAppend(a + name, ")");
    assert Upper(")") == ")";
  }

  /** Saving the auto-fill text `<code> (<name>) ` cuts the trailing blank and
      upper-cases the name. */
  lemma SavedFillOf(code: string, name: string)
    requires IsCapitals(code)
    ensures ExchangeField(code + " (" + name + ") ") == SavedFill(code, name)
  {
    var x := code + " (" + name + ")";
    assert code + " (" + name + ") " == x + " ";
    assert Trimmed(x) by {
      assert x[0] == code[0] && x[|x| - 1] == ')';
    }
    StripPadded(x);
    assert Strip(x + " ") == x;
    UpperOfFill(code, name);
  }

  /** The code is the first blank-separated piece of its saved auto-fill. */
  lemma SavedFillCode(code: string, name: string)
    requires IsCapitals(code)
    ensures RunLength(SavedFill(code, name), ' ') == |code|
    ensures SavedFill(code, name)[..|code|] == code
  {
    var tail := " (" + Upper(name) + ")";
    assert SavedFill(code, name) == code + tail;
    RunLengthOfRun(code, ' ', tail);
  }

  /** Saving the auto-filled text of a county code stores the code, a blank and the
      upper-cased county name in parentheses. */
  lemma AutoFillSaved(code: string)
    requires code in CountyCodes
    ensures ExchangeField(AutoFillText(code)) == SavedFill(code, CountyCodes[code])
  {
    var name := CountyCodes[code];
    CountyCodeIsCapitals(code);
    assert AutoFillText(code) == code + " (" + name + ") ";
    SavedFillOf(code, name);
  }

  /** The county code whose auto-fill, once saved, is the text `saved`. */
  function AutoFillCode(saved: string): (r: Option<string>)
    ensures r.Some? ==> r.value in CountyCodes && saved == ExchangeField(AutoFillText(r.value))
    ensures r.Some? ==> |r.value| < |saved|
  {
    var code := saved[..RunLength(saved, ' ')];
    if code in CountyCodes && saved == SavedFill(code, CountyCodes[code]) then
      AutoFillSaved(code);
      Some(code)
    else None
  }

  /** Every county code's saved auto-fill is recognised, and gives back the code. */
  lemma AutoFillCodeOfSaved(code: string)
    requires code in CountyCodes
    ensures AutoFillCode(ExchangeField(AutoFillText(code))) == Some(code)
  {
    AutoFillSaved(code);
    CountyCodeIsCapitals(code);
    SavedFillCode(code, CountyCodes[code]);
  }

  /** The county code to save from the Rcvd text: the saved exchange, except that
      an auto-filled `<code> (<name>) ` is saved as `<code>` alone. */
  function ReceivedCountyCode(rcvd: string): (code: string)
    ensures code == ExchangeField(rcvd) <==> AutoFillCode(ExchangeField(rcvd)).None?
    ensures code != ExchangeField(rcvd) ==>
      code in CountyCodes && ExchangeField(rcvd) == ExchangeField(AutoFillText(code))
    ensures Upper(code) == code && Trimmed(code)
  {
    var saved := ExchangeField(rcvd);
    match AutoFillCode(saved)
    case Some(c) =>
      AutoFillCodeIsCode(saved, c);
      c
    case None => saved
  }

  /** A code recognised in a saved auto-fill is a saved county code, not the whole text. */
  lemma AutoFillCodeIsCode(saved: string, c: string)
    requires AutoFillCode(saved) == Some(c)
    ensures c != saved && Upper(c) == c && Trimmed(c)
  {
    CountyCodeIsCapitals(c);
    CapitalsAreSaved(c);
  }

  /** A trailing blank does not change the saved exchange. */
  lemma ExchangeFieldPadded(text: string)
    ensures ExchangeField(text + " ") == ExchangeField(text)
  {
    StripPadded(text);
  }

  /** The saved exchange is the typed text's piece from its first non-whitespace
      character, upper-cased, with only whitespace around that piece. */
  lemma ExchangeFieldPiece(text: string)
    ensures var r, i := ExchangeField(text), StripStart(text);
      && i + |r| <= |text| && r == Upper(text[i..][..|r|])
      && BlankOutside(text, i, i + |r|)
  {
    StripPiece(text);
  }

  /** Upper-casing first does not change the saved exchange. */
  lemma ExchangeFieldOfUpper(text: string)
    ensures ExchangeField(Upper(text)) == ExchangeField(text)
  {
    StripOfUpper(text);
    UpperIdempotent(Strip(text));
  }

  /** Saving the auto-filled Rcvd text through `ReceivedCountyCode` stores the history
      exchange as the plugin would save it typed: the code alone for a county code,
      and any other exchange unchanged unless it itself reads as an auto-fill. */
  lemma ReceivedCountyCodeOfAutoFill(exch1: string)
    requires Upper(exch1) in CountyCodes || AutoFillCode(ExchangeField(exch1)).None?
    ensures ReceivedCountyCode(HistoryFill(exch1, "")) == ExchangeField(exch1)
  {
    if Upper(exch1) in CountyCodes {
      CountyFillReceived(exch1);
    } else {
      OtherFillReceived(exch1);
    }
  }

  /** The auto-fill of a county code is saved, with the correction, as the code. */
  lemma CountyFillReceived(exch1: string)
    requires Upper(exch1) in CountyCodes
    ensures ReceivedCountyCode(HistoryFill(exch1, "")) == ExchangeField(exch1)
  {
    var e := Upper(exch1);
    var filled := AutoFillText(e);
    assert HistoryFill(exch1, "") == filled;
    AutoFillCodeOfSaved(e);
    assert ReceivedCountyCode(filled) == e;
    CountyCodeIsCapitals(e);
    CapitalsAreSaved(e);
    ExchangeFieldOfUpper(exch1);
  }

  /** Any other exchange is auto-filled with a trailing blank, which saving cuts off. */
  lemma OtherFillReceived(exch1: string)
    requires Upper(exch1) !in CountyCodes && AutoFillCode(ExchangeField(exch1)).None?
    ensures ReceivedCountyCode(HistoryFill(exch1, "")) == ExchangeField(exch1)
  {
    var e := Upper(exch1);
    ExchangeFieldOfUpper(exch1);
    if e == [] {
      assert HistoryFill(exch1, "") == [];
      assert exch1 == [];
    } else {
      assert HistoryFill(exch1, "") == e + " ";
      ExchangeFieldPadded(e);
    }
  }

  /** With the correction, the history exchange `trv` is saved as the code `TRV`. */
  lemma TravisSavedAsCode()
    ensures ReceivedCountyCode(HistoryFill("trv", "")) == "TRV"
  {
    TravisFilled();
    TravisFillRead();
  }

  /** The corrected reading of the auto-filled `TRV (Travis) ` is the code `TRV`. */
  lemma TravisFillRead()
    ensures ReceivedCountyCode("TRV (Travis) ") == "TRV"
  {
    var code := "TRV";
    var filled := AutoFillText(code);
    assert filled == "TRV (Travis) ";
    AutoFillCodeOfSaved(code);
    assert ReceivedCountyCode(filled) == code;
  }


}
