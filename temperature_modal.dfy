/** The temperature settings modal: a mode toggle (`auto` follows the sensor, `manual` takes a
    typed value), a text field filtered as the user types, a poll of the server's current
    display temperature while in `auto`, and a submit that only ever sends manual values.
    `parseFloat` and `toFixed(1)` are parameters; for the strings the input filter lets through,
    `ParseTyped` is what `parseFloat` computes on them. */
module TemperatureModal {
  import opened Common
  import opened Tables
  import Display

  datatype Mode = Auto | Manual

  /** A JavaScript number as far as this modal looks at it. */
  datatype Number = NaN | Num(value: real)

  /** A number used as a condition: 0 and NaN are falsy. */
  predicate NumberTruthy(n: Number) {
    n.Num? && n.value != 0.0
  }

  datatype Toast = ToastWarning(text: string) | ToastError(text: string) | ToastSuccess(value: real)

  const AutoText := "auto"
  const ManualText := "manual"
  const SuccessStatus := "success"
  const CannotSaveInAuto := "Tidak bisa menyimpan dalam mode otomatis"
  const NotANumber := "Harap masukkan angka yang valid"
  const RefreshFailed := "Gagal memperbarui suhu otomatis"
  const SaveFailedDefault := "Gagal menyimpan suhu"

  // ---------------------------------------------------------------------------
  // The input filter `/^[0-9]*\.?[0-9]*$/`

  /** The number of digits `s` starts with. */
  function LeadingDigits(s: string): (k: nat)
    ensures k <= |s|
    ensures forall i :: 0 <= i < k ==> IsDigit(s[i])
    ensures k < |s| ==> !IsDigit(s[k])
  {
    if |s| == 0 || !IsDigit(s[0]) then 0 else 1 + LeadingDigits(s[1..])
  }

  /** `s` matches `^[0-9]*\.?[0-9]*$`: digits, then optionally a `.` followed by digits. */
  predicate TempPattern(s: string) {
    var k := LeadingDigits(s);
    k == |s| || (s[k] == '.' && AllDigits(s[k + 1..]))
  }

  /** The same language described character by character: only digits and dots, and no two
      dots. */
  predicate DigitsAndOneDot(s: string) {
    && (forall i :: 0 <= i < |s| ==> IsDigit(s[i]) || s[i] == '.')
    && (forall i, j :: 0 <= i < j < |s| && s[i] == '.' ==> s[j] != '.')
  }

  /** `value === '' || /^[0-9]*\.?[0-9]*$/.test(value)` */
  predicate AcceptsTemp(value: string) {
    value == "" || TempPattern(value)
  }

  /** The pattern is exactly "digits with at most one dot"; the empty-string test in front of it
      adds nothing, since the pattern already matches "". */
  lemma TempPatternIff(s: string)
    ensures TempPattern(s) <==> DigitsAndOneDot(s)
    ensures AcceptsTemp(s) <==> TempPattern(s)
  {
    var k := LeadingDigits(s);
    if TempPattern(s) && k < |s| {
      forall i, j | 0 <= i < j < |s| && s[i] == '.' ensures s[j] != '.' {
        assert i == k;
        assert s[k + 1..][j - k - 1] == s[j];
      }
      forall i | 0 <= i < |s| ensures IsDigit(s[i]) || s[i] == '.' {
        if i > k {
          assert s[k + 1..][i - k - 1] == s[i];
        }
      }
    }
    if DigitsAndOneDot(s) && k < |s| {
      assert s[k] == '.';
      var rest := s[k + 1..];
      forall i | 0 <= i < |rest| ensures IsDigit(rest[i]) {
        assert rest[i] == s[k + 1 + i];
      }
    }
  }

  /** `parseFloat` on a string the filter accepted: the integer digits plus the fraction digits
      scaled down; NaN when there is no digit at all. */
  function ParseTyped(s: string): Number
    requires TempPattern(s)
  {
    var k := LeadingDigits(s);
    var whole := s[..k];
    var fraction := if k < |s| then s[k + 1..] else "";
    if |whole| == 0 && |fraction| == 0 then NaN
    else
      Pow10Positive(|fraction|);
      Num(ParseDecimal(whole) as real + ParseDecimal(fraction) as real / Pow10(|fraction|) as real)
  }

  /** Of the strings the filter lets through, only "" and "." are not numbers, and every number
      typed is at least 0. */
  lemma TypedNaNIff(s: string)
    requires TempPattern(s)
    ensures ParseTyped(s).NaN? <==> s == "" || s == "."
    ensures ParseTyped(s).Num? ==> ParseTyped(s).value >= 0.0
  {
    var k := LeadingDigits(s);
    if s == "." {
      assert k == 0;
    }
    if ParseTyped(s).Num? {
      assert Pow10(|if k < |s| then s[k + 1..] else ""|) > 0 by {
        Pow10Positive(|if k < |s| then s[k + 1..] else ""|);
      }
    }
  }

  lemma {:induction false} Pow10Positive(n: nat)
    ensures Pow10(n) > 0
  {
    if n > 0 {
      Pow10Positive(n - 1);
    }
  }

  /** The field's hint says 0 to 50, but nothing enforces the upper bound: "51" passes the filter
      and is a number. */
  lemma AboveHintAccepted()
    ensures TempPattern("51") && ParseTyped("51") == Num(51.0)
  {
    assert LeadingDigits("51"[1..]) == 1;
    assert "51"[..2] == "51";
    assert ParseDecimal("51"[..1]) == 5;
  }

  /** `parseFloat` computes `ParseTyped` on every string the filter accepts. */
  ghost predicate ParsesTypedInput(parseFloat: string -> Number) {
    forall s :: TempPattern(s) ==> parseFloat(s) == ParseTyped(s)
  }

  // ---------------------------------------------------------------------------
  // Requests and answers

  /** The body and the `Authorization` header of the manual-save request. */
  datatype TempRequest = TempRequest(temperature: real, mode: string, authorization: string)

  /** `Bearer ${localStorage.getItem('token')}`: the token is not checked first, so without one
      the header reads "Bearer null". */
  function Authorization(token: Option<string>): (h: string)
    ensures token.None? ==> h == "Bearer null"
    ensures token.Some? ==> h == "Bearer " + token.value
  {
    "Bearer " + if token.Some? then token.value else "null"
  }

  /** How the save request ends: rejected (with the server's `message`, when it sent one), or
      resolved with the answer's `status`. */
  datatype SubmitAnswer = SubmitRejected(message: Option<string>) | SubmitResolved(status: string)

  /** How a poll ends: rejected (404 on an empty table, 500, network), or resolved with the
      answer's `status` and the row it carries. */
  datatype PollAnswer = PollRejected | PollResolved(status: string, data: Display.TemperatureView)

  /** What the client receives for the server's `getTemperature` result. */
  function PollAnswerOf(a: Display.Answer<Display.TemperatureView>): (p: PollAnswer)
    ensures a.Missing? <==> p.PollRejected?
    ensures a.Found? ==> p == PollResolved(SuccessStatus, a.value)
  {
    match a
    case Missing(_) => PollRejected
    case Found(v) => PollResolved(SuccessStatus, v)
  }

  /** A submit sends a request exactly in manual mode with a value that parses to a number. */
  predicate Submits(mode: Mode, temp: string, parseFloat: string -> Number) {
    mode == Manual && parseFloat(temp).Num?
  }

  /** A poll changes the shown value exactly in auto mode, on a successful answer whose row is
      itself in `auto` mode. */
  predicate PollUpdates(mode: Mode, answer: PollAnswer) {
    mode == Auto && answer.PollResolved? && answer.status == SuccessStatus && answer.data.mode == AutoText
  }

  /** For a value typed through the filter, the submit goes out iff the mode is manual and the
      field holds at least one digit; in auto mode nothing is ever sent. */
  lemma TypedSubmitIff(temp: string, parseFloat: string -> Number)
    requires ParsesTypedInput(parseFloat) && TempPattern(temp)
    ensures Submits(Manual, temp, parseFloat) <==> temp != "" && temp != "."
    ensures !Submits(Auto, temp, parseFloat)
  {
    TypedNaNIff(temp);
  }

  /** Once a manual value is saved, every poll sees that row in `manual` mode and leaves the
      modal alone; once the sensor writes again, polls in auto mode update it. */
  lemma ManualSaveStopsPollUpdates(rows: seq<Row<Display.DisplayTemperature>>, next: nat,
                                   temperature: string, nowMs: int, mode: Mode)
    requires WellFormed(rows, next) && next >= 1
    ensures !PollUpdates(mode, PollAnswerOf(Display.LatestTemperature(
      Insert(rows, next, Display.DisplayTemperature(temperature, ManualText, nowMs, nowMs)))))
    ensures PollUpdates(Auto, PollAnswerOf(Display.LatestTemperature(
      Insert(rows, next, Display.DisplayTemperature(temperature, Display.AutoMode, nowMs, nowMs)))))
  {
    ReadAfterInsert(rows, next, Display.DisplayTemperature(temperature, ManualText, nowMs, nowMs));
    ReadAfterInsert(rows, next, Display.DisplayTemperature(temperature, Display.AutoMode, nowMs, nowMs));
  }

  // ---------------------------------------------------------------------------
  // The modal's state

  /** The state of one `TemperatureModal`; `closed` records that `onClose` was called and
      `toasts` the notifications shown, oldest first. */
  class TemperatureModalState {
    var mode: Mode
    var temp: string
    var dbTemp: Option<Number>
    var isLoading: bool
    var isAutoRefreshing: bool
    var closed: bool
    var toasts: seq<Toast>

    /** The initial state: auto mode, an empty field, no sensor reading yet. */
    constructor()
      ensures mode == Auto && temp == "" && dbTemp == None
      ensures !isLoading && !isAutoRefreshing && !closed && toasts == []
    {
      mode := Auto;
      temp := "";
      dbTemp := None;
      isLoading := false;
      isAutoRefreshing := false;
      closed := false;
      toasts := [];
    }

    /** The effect on `show` becoming true: back to auto mode with an empty field. */
    method Open()
      modifies this
      ensures mode == Auto && temp == ""
      ensures dbTemp == old(dbTemp) && isLoading == old(isLoading) && isAutoRefreshing == old(isAutoRefreshing)
      ensures closed == old(closed) && toasts == old(toasts)
    {
      mode := Auto;
      temp := "";
    }

    /** The toggle's `onChange`: switching to auto shows the last sensor reading, if there is a
        truthy one. */
    method HandleModeChange(value: Mode, toFixed: Number -> string)
      modifies this
      ensures mode == value
      ensures temp == if value == Auto && dbTemp.Some? && NumberTruthy(dbTemp.value) then toFixed(dbTemp.value) else old(temp)
      ensures dbTemp == old(dbTemp) && isLoading == old(isLoading) && isAutoRefreshing == old(isAutoRefreshing)
      ensures closed == old(closed) && toasts == old(toasts)
    {
      mode := value;
      if value == Auto && dbTemp.Some? && NumberTruthy(dbTemp.value) {
        temp := toFixed(dbTemp.value);
      }
    }

    /** `handleTempChange`: the field only takes values the filter accepts. */
    method HandleTempChange(value: string)
      modifies this
      ensures temp == if AcceptsTemp(value) then value else old(temp)
      ensures TempPattern(old(temp)) ==> TempPattern(temp)
      ensures mode == old(mode) && dbTemp == old(dbTemp) && isLoading == old(isLoading)
      ensures isAutoRefreshing == old(isAutoRefreshing) && closed == old(closed) && toasts == old(toasts)
    {
      TempPatternIff(value);
      if value == "" || TempPattern(value) {
        temp := value;
      }
    }

    /** `fetchTemperature`, the initial call and each tick of the 5-second interval. */
    method Poll(answer: PollAnswer, parseFloat: string -> Number, toFixed: Number -> string)
      modifies this
      ensures PollUpdates(old(mode), answer) ==>
        dbTemp == Some(parseFloat(answer.data.temperature)) && temp == toFixed(parseFloat(answer.data.temperature))
      ensures !PollUpdates(old(mode), answer) ==> dbTemp == old(dbTemp) && temp == old(temp)
      ensures toasts == if old(mode) == Auto && answer.PollRejected? then old(toasts) + [ToastError(RefreshFailed)] else old(toasts)
      ensures isAutoRefreshing == (old(mode) != Auto && old(isAutoRefreshing))
      ensures mode == old(mode) && isLoading == old(isLoading) && closed == old(closed)
    {
      if mode != Auto {
        return;
      }
      isAutoRefreshing := true;
      match answer {
        case PollRejected =>
          toasts := toasts + [ToastError(RefreshFailed)];
        case PollResolved(status, data) =>
          if status == SuccessStatus && data.mode == AutoText {
            var sensorTemp := parseFloat(data.temperature);
            dbTemp := Some(sensorTemp);
            temp := toFixed(sensorTemp);
          }
      }
      isAutoRefreshing := false;
    }

    /** `handleSubmit`: in auto mode, or with a value that is not a number, nothing is sent and a
        toast says why; otherwise the value goes out with mode `manual`, and a `success` answer
        closes the modal. */
    method HandleSubmit(token: Option<string>, parseFloat: string -> Number, answer: SubmitAnswer)
      returns (sent: Option<TempRequest>)
      modifies this
      ensures sent.Some? <==> Submits(old(mode), old(temp), parseFloat)
      ensures sent.Some? ==>
        sent.value == TempRequest(parseFloat(old(temp)).value, ManualText, Authorization(token))
      ensures old(mode) == Auto ==>
        toasts == old(toasts) + [ToastWarning(CannotSaveInAuto)] && closed == old(closed) && isLoading == old(isLoading)
      ensures old(mode) == Manual && parseFloat(old(temp)).NaN? ==>
        toasts == old(toasts) + [ToastError(NotANumber)] && closed == old(closed) && isLoading == old(isLoading)
      ensures sent.Some? ==> !isLoading && SaveOutcome(old(toasts), old(closed), answer, sent.value.temperature)
      ensures mode == old(mode) && temp == old(temp) && dbTemp == old(dbTemp) && isAutoRefreshing == old(isAutoRefreshing)
    {
      if mode == Auto {
        toasts := toasts + [ToastWarning(CannotSaveInAuto)];
        return None;
      }
      var temperatureValue := parseFloat(temp);
      if temperatureValue.NaN? {
        toasts := toasts + [ToastError(NotANumber)];
        return None;
      }
      sent := Some(TempRequest(temperatureValue.value, ManualText, Authorization(token)));
      isLoading := true;
      Settle(answer, temperatureValue.value);
      isLoading := false;
    }

    /** What a sent request's answer does: a `success` status toasts the value and closes the
        modal, any other status does nothing, and a rejection toasts the server's message or a
        default one. */
    ghost predicate SaveOutcome(toasts0: seq<Toast>, closed0: bool, answer: SubmitAnswer, value: real)
      reads this
    {
      match answer
      case SubmitResolved(status) =>
        if status == SuccessStatus then toasts == toasts0 + [ToastSuccess(value)] && closed
        else toasts == toasts0 && closed == closed0
      case SubmitRejected(message) =>
        && toasts == toasts0 + [ToastError(if Truthy(message) then message.value else SaveFailedDefault)]
        && closed == closed0
    }

    method Settle(answer: SubmitAnswer, value: real)
      modifies this
      ensures SaveOutcome(old(toasts), old(closed), answer, value)
      ensures mode == old(mode) && temp == old(temp) && dbTemp == old(dbTemp)
      ensures isLoading == old(isLoading) && isAutoRefreshing == old(isAutoRefreshing)
    {
      match answer
      case SubmitResolved(status) =>
        if status == SuccessStatus {
          toasts := toasts + [ToastSuccess(value)];
          closed := true;
        }
      case SubmitRejected(message) =>
        toasts := toasts + [ToastError(if Truthy(message) then message.value else SaveFailedDefault)];
    }
  }
}
