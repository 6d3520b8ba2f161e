/** The display channels the signage device polls (running text, date and time, temperature),
    the sensor ingest, and the feature-usage log every manual edit appends to.
    Each table is a sequence of rows with auto-increment ids; `NOW()` is the `nowMs`
    parameter, the value the column stores (two edits within one second store the same value), and the server's `CURDATE()` / today's ISO date are string parameters. */
module Display {
  import opened Common
  import opened Tables
  import opened Jwt

  // Reply messages.
  const TextSaved := "Teks berhasil diperbarui."
  const NoText := "Belum ada teks."
  const DateSaved := "Tanggal berhasil disimpan."
  const NoDate := "Belum ada data tanggal."
  const TimeSaved := "Jam berhasil disimpan."
  const TimeFailed := "Gagal menyimpan jam."
  const NoTime := "Belum ada data jam."
  const SensorStored := "Data suhu dari sensor berhasil disimpan & ditampilkan."
  const TemperatureSaved := "Suhu berhasil disimpan."
  const NoTemperature := "Belum ada data suhu."
  const UsageIdRequired := "ID diperlukan untuk menghapus data."
  const UsageNotFound := "Data tidak ditemukan."
  const UsageDeleted := "Data berhasil dihapus."
  const AllUsageDeleted := "Semua riwayat penggunaan fitur berhasil dihapus."
  const DefaultSpeed := "50"

  // Feature names, description prefixes and modes written by the handlers.
  const EditText := "Edit Text"
  const EditDate := "Edit Date"
  const EditTime := "Edit Time"
  const EditTemperature := "Edit Temperature"
  const TextChanged := "Teks diubah menjadi: "
  const DateChanged := "Tanggal diubah menjadi: "
  const TimeChanged := "Jam diubah menjadi: "
  const TemperatureChanged := "Suhu diubah menjadi: "
  const Celsius := "°C"
  const AutoMode := "auto"
  const MidnightTime := "00:00:00"

  /** Where a `temperature_data` row came from. */
  datatype Source = Sensor | User

  /** `running_texts(text, updated_by, updated_at)` */
  datatype RunningText = RunningText(text: string, updatedBy: Option<int>, updatedAt: int)
  /** `display_datetime(date, time, mode, created_at, updated_at)`: date and time share this table. */
  datatype DisplayDateTime = DisplayDateTime(date: string, time: string, mode: string, createdAt: int, updatedAt: int)
  /** `display_temperature(temperature, mode, created_at, updated_at)`; the temperature is kept
      as the text the client sent. */
  datatype DisplayTemperature = DisplayTemperature(temperature: string, mode: string, createdAt: int, updatedAt: int)
  /** `temperature_data(temperature, mode, source)`, the full log. */
  datatype Reading = Reading(temperature: string, mode: string, source: Source)
  /** `feature_usage_history(user_id, name, feature, change_description, used_at)` */
  datatype UsageEntry = UsageEntry(userId: Option<int>, name: string, feature: string, description: string, usedAt: int)

  /** What a read handler answers: 404 with a message on an empty table, or the selected columns. */
  datatype Answer<T> = Missing(reply: Reply) | Found(value: T)

  datatype TextView = TextView(text: string, updatedAt: int)
  /** `day` is the UTC day number (days since 1970-01-01) that `toISOString` renders. */
  datatype DateView = DateView(day: int, time: string, mode: string)
  datatype TimeView = TimeView(time: string, mode: string)
  datatype TemperatureView = TemperatureView(temperature: string, mode: string)

  function UpdatedAt(r: Row<RunningText>): int {
    r.data.updatedAt
  }

  function UsedAt(r: Row<UsageEntry>): int {
    r.data.usedAt
  }

  /** A claim interpolated into a template literal: absent claims print as "undefined". */
  function Interpolated(o: Option<string>): (s: string)
    ensures o.Some? ==> s == o.value
  {
    if o.Some? then o.value else "undefined"
  }

  /** The `name` column of the date, time and temperature edits: both claims, undefined or not. */
  function LoggedName(cred: Claims): string {
    Interpolated(cred.firstName) + " " + Interpolated(cred.lastName)
  }

  /** Two parts joined by a space are all white space exactly when both parts are. */
  lemma AllSpaceJoin(first: string, last: string)
    ensures AllSpace(first + " " + last) <==> AllSpace(first) && AllSpace(last)
  {
    var s := first + " " + last;
    if AllSpace(s) {
      forall i | 0 <= i < |first| ensures IsSpace(first[i]) { assert s[i] == first[i]; }
      forall i | 0 <= i < |last| ensures IsSpace(last[i]) { assert s[|first| + 1 + i] == last[i]; }
    }
  }

  /** The `name` column of the text edit: absent claims count as "" and the result is trimmed.
      It is empty, the case the handler warns about, exactly when both claims are absent or
      all white space. */
  function TextEditorName(cred: Claims): (name: string)
    ensures name == "" <==>
      && (cred.firstName.Some? ==> AllSpace(cred.firstName.value))
      && (cred.lastName.Some? ==> AllSpace(cred.lastName.value))
    ensures name == "" || (!IsSpace(name[0]) && !IsSpace(name[|name| - 1]))
  {
    var first := if cred.firstName.Some? then cred.firstName.value else "";
    var last := if cred.lastName.Some? then cred.lastName.value else "";
    AllSpaceJoin(first, last);
    TrimEmptyIffAllSpace(first + " " + last);
    TrimSpec(first + " " + last);
    Trim(first + " " + last)
  }

  /** `${hours}:${minutes}:00` from `time.split(":")`; a missing minutes field prints "undefined". */
  function FormattedTime(time: string): string {
    var parts := Split(time, ':');
    parts[0] + ":" + (if |parts| > 1 then parts[1] else "undefined") + ":00"
  }

  /** "HH:MM" is stored as "HH:MM:00". */
  lemma FormattedHoursMinutes(hours: string, minutes: string)
    requires ':' !in hours && ':' !in minutes
    ensures FormattedTime(hours + ":" + minutes) == hours + ":" + minutes + ":00"
  {
    SplitAfterHead(hours, ':', minutes);
    SplitNoSep(minutes, ':');
    assert hours + ":" + minutes == hours + [':'] + minutes;
  }

  /** Any seconds (or further fields) the client sends are dropped and replaced by ":00". */
  lemma FormattedDropsSeconds(hours: string, minutes: string, rest: string)
    requires ':' !in hours && ':' !in minutes
    ensures FormattedTime(hours + ":" + minutes + ":" + rest) == hours + ":" + minutes + ":00"
  {
    SplitAfterHead(hours, ':', minutes + ":" + rest);
    SplitAfterHead(minutes, ':', rest);
    assert hours + ":" + minutes + ":" + rest == hours + [':'] + (minutes + [':'] + rest);
    assert minutes + ":" + rest == minutes + [':'] + rest;
  }

  /** A value without ':' has no minutes field. */
  lemma FormattedWithoutColon(time: string)
    requires ':' !in time
    ensures FormattedTime(time) == time + ":undefined:00"
  {
    SplitNoSep(time, ':');
  }

  const HourMs := 60 * 60 * 1000
  const DayMs := 24 * HourMs
  /** The shift `getDateTime` applies before rendering the UTC date (WIB is UTC+7). */
  const WibShiftMs := 7 * HourMs

  /** The UTC day of the stored instant plus seven hours, as `toISOString().split('T')[0]` shows it. */
  function ShownDay(instantMs: int): (day: int)
    ensures day * DayMs <= instantMs + WibShiftMs < (day + 1) * DayMs
  {
    (instantMs + WibShiftMs) / DayMs
  }

  /** The driver reads a stored DATE `d` as local midnight, `d * DayMs - offsetMs` on a server at
      UTC+offset. The date shown is the stored one exactly when the offset lies in (-17 h, +7 h];
      on a server east of WIB the previous day is shown. */
  lemma ShownDayIsStoredDay(d: int, offsetMs: int)
    ensures ShownDay(d * DayMs - offsetMs) == d <==> -17 * HourMs < offsetMs <= WibShiftMs
  {
    var day := ShownDay(d * DayMs - offsetMs);
    if -17 * HourMs < offsetMs <= WibShiftMs {
      assert d * DayMs <= d * DayMs - offsetMs + WibShiftMs < (d + 1) * DayMs;
    } else if offsetMs > WibShiftMs {
      assert day * DayMs < d * DayMs;
    } else {
      assert (day + 1) * DayMs > (d + 1) * DayMs;
    }
  }

  /** `String(rows[0].speed)`, or the default "50" when the settings table is empty. */
  function SpeedReply(settings: seq<int>): (r: Reply)
    ensures r.code == 200
    ensures |settings| == 0 ==> r.message == DefaultSpeed
    ensures |settings| > 0 && settings[0] >= 0 ==> AllDigits(r.message) && ParseDecimal(r.message) == settings[0]
  {
    if |settings| == 0 then Reply(200, DefaultSpeed)
    else
      ParseDecimalStringInt(settings[0]);
      Reply(200, IntString(settings[0]))
  }

  lemma ParseDecimalStringInt(i: int)
    ensures i >= 0 ==> AllDigits(IntString(i)) && ParseDecimal(IntString(i)) == i
  {
    if i >= 0 {
      ParseDecimalString(i);
    }
  }

  /** Every `temperature_data` row the sensor wrote is tagged `auto`. */
  ghost predicate SensorRowsAuto(log: seq<Row<Reading>>) {
    forall i :: 0 <= i < |log| && log[i].data.source == Sensor ==> log[i].data.mode == AutoMode
  }

  /** The usage row of `handleEditText`: `Teks diubah menjadi: <text>`. */
  function TextUsage(cred: Claims, text: string, nowMs: int): UsageEntry {
    UsageEntry(cred.id, TextEditorName(cred), EditText, TextChanged + text, nowMs)
  }

  /** The usage row of `handleDateTime`: `Tanggal diubah menjadi: <date> (<mode>)`. */
  function DateUsage(cred: Claims, date: string, mode: string, nowMs: int): UsageEntry {
    UsageEntry(cred.id, LoggedName(cred), EditDate, DateChanged + date + " (" + mode + ")", nowMs)
  }

  /** The usage row of `handleEditTime`: `Jam diubah menjadi: <time> (<mode>)`. */
  function TimeUsage(cred: Claims, time: string, mode: string, nowMs: int): UsageEntry {
    UsageEntry(cred.id, LoggedName(cred), EditTime, TimeChanged + time + " (" + mode + ")", nowMs)
  }

  /** The usage row of a manual temperature edit: `Suhu diubah menjadi: <T>°C (<mode>)`. */
  function TemperatureUsage(cred: Claims, temperature: string, mode: string, nowMs: int): UsageEntry {
    UsageEntry(cred.id, LoggedName(cred), EditTemperature, TemperatureChanged + temperature + Celsius + " (" + mode + ")", nowMs)
  }

  /** `getLatestRunningText`: a row with the latest `updated_at`, or 404 on an empty table. */
  function LatestText(rows: seq<Row<RunningText>>): (a: Answer<TextView>)
    ensures a.Missing? <==> |rows| == 0
    ensures a.Missing? ==> a.reply == Reply(404, NoText)
    ensures a.Found? ==>
      exists i :: 0 <= i < |rows| && a.value == TextView(rows[i].data.text, rows[i].data.updatedAt)
    ensures a.Found? ==> forall i :: 0 <= i < |rows| ==> rows[i].data.updatedAt <= a.value.updatedAt
  {
    match MaxBy(rows, UpdatedAt)
    case None => Missing(Reply(404, NoText))
    case Some(row) => Found(TextView(row.data.text, row.data.updatedAt))
  }

  /** Row `i` has the greatest id of the table: what `ORDER BY id DESC LIMIT 1` selects. */
  predicate GreatestId<T>(rows: seq<Row<T>>, i: int) {
    0 <= i < |rows| && forall j :: 0 <= j < |rows| ==> rows[j].id <= rows[i].id
  }

  /** `getDateTime`: the greatest-id row, its date shown as the day of the stored instant + 7 h;
      `midnightOf` is the driver's reading of a DATE column as an instant. */
  function LatestDateTime(rows: seq<Row<DisplayDateTime>>, midnightOf: string -> int): (a: Answer<DateView>)
    ensures a.Missing? <==> |rows| == 0
    ensures a.Missing? ==> a.reply == Reply(404, NoDate)
    ensures a.Found? ==>
      exists i :: GreatestId(rows, i) && a.value == DateView(ShownDay(midnightOf(rows[i].data.date)), rows[i].data.time, rows[i].data.mode)
  {
    match MaxBy(rows, RowId)
    case None => Missing(Reply(404, NoDate))
    case Some(row) => Found(DateView(ShownDay(midnightOf(row.data.date)), row.data.time, row.data.mode))
  }

  /** `getTime`: time and mode of the greatest-id date/time row, or 404. */
  function LatestTime(rows: seq<Row<DisplayDateTime>>): (a: Answer<TimeView>)
    ensures a.Missing? <==> |rows| == 0
    ensures a.Missing? ==> a.reply == Reply(404, NoTime)
    ensures a.Found? ==> exists i :: GreatestId(rows, i) && a.value == TimeView(rows[i].data.time, rows[i].data.mode)
  {
    match MaxBy(rows, RowId)
    case None => Missing(Reply(404, NoTime))
    case Some(row) => Found(TimeView(row.data.time, row.data.mode))
  }

  /** `getTemperature`: value and mode of the greatest-id display row, or 404. */
  function LatestTemperature(rows: seq<Row<DisplayTemperature>>): (a: Answer<TemperatureView>)
    ensures a.Missing? <==> |rows| == 0
    ensures a.Missing? ==> a.reply == Reply(404, NoTemperature)
    ensures a.Found? ==>
      exists i :: GreatestId(rows, i) && a.value == TemperatureView(rows[i].data.temperature, rows[i].data.mode)
  {
    match MaxBy(rows, RowId)
    case None => Missing(Reply(404, NoTemperature))
    case Some(row) => Found(TemperatureView(row.data.temperature, row.data.mode))
  }

  /** In a well-formed table the greatest-id reads return the most recently inserted row. */
  lemma LatestReadsLastRow(times: seq<Row<DisplayDateTime>>, nextTime: nat,
                           temps: seq<Row<DisplayTemperature>>, nextTemp: nat)
    requires WellFormed(times, nextTime) && WellFormed(temps, nextTemp)
    ensures |times| > 0 ==> LatestTime(times) == Found(TimeView(times[|times| - 1].data.time, times[|times| - 1].data.mode))
    ensures |temps| > 0 ==>
      LatestTemperature(temps) == Found(TemperatureView(temps[|temps| - 1].data.temperature, temps[|temps| - 1].data.mode))
  {
    if |times| > 0 {
      LatestIsLastInserted(times, nextTime);
    }
    if |temps| > 0 {
      LatestIsLastInserted(temps, nextTemp);
    }
  }

  /** The display-side tables of the backend. `running_text_settings` is written by no handler
      of this model, so it is fixed at construction. */
  class DisplayStore {
    var runningTexts: seq<Row<RunningText>>
    var nextTextId: nat
    var dateTimes: seq<Row<DisplayDateTime>>
    var nextDateTimeId: nat
    var displayTemps: seq<Row<DisplayTemperature>>
    var nextDisplayTempId: nat
    var readings: seq<Row<Reading>>
    var nextReadingId: nat
    var usage: seq<Row<UsageEntry>>
    var nextUsageId: nat
    const speedSettings: seq<int>

    ghost predicate Valid()
      reads this
    {
      && 1 <= nextTextId && WellFormed(runningTexts, nextTextId)
      && 1 <= nextDateTimeId && WellFormed(dateTimes, nextDateTimeId)
      && 1 <= nextDisplayTempId && WellFormed(displayTemps, nextDisplayTempId)
      && 1 <= nextReadingId && WellFormed(readings, nextReadingId)
      && 1 <= nextUsageId && WellFormed(usage, nextUsageId)
      && SensorRowsAuto(readings)
    }

    constructor (settings: seq<int>)
      ensures Valid()
      ensures runningTexts == [] && dateTimes == [] && displayTemps == [] && readings == [] && usage == []
      ensures speedSettings == settings
    {
      runningTexts := [];
      nextTextId := 1;
      dateTimes := [];
      nextDateTimeId := 1;
      displayTemps := [];
      nextDisplayTempId := 1;
      readings := [];
      nextReadingId := 1;
      usage := [];
      nextUsageId := 1;
      speedSettings := settings;
    }

    /** `INSERT INTO running_texts` */
    method AppendText(row: RunningText)
      requires Valid()
      modifies this
      ensures Valid()
      ensures runningTexts == Insert(old(runningTexts), old(nextTextId), row) && nextTextId == old(nextTextId) + 1
      ensures dateTimes == old(dateTimes) && nextDateTimeId == old(nextDateTimeId)
      ensures displayTemps == old(displayTemps) && nextDisplayTempId == old(nextDisplayTempId)
      ensures readings == old(readings) && nextReadingId == old(nextReadingId)
      ensures usage == old(usage) && nextUsageId == old(nextUsageId)
    {
      InsertWellFormed(runningTexts, nextTextId, row);
      runningTexts := Insert(runningTexts, nextTextId, row);
      nextTextId := nextTextId + 1;
    }

    /** `INSERT INTO display_datetime` */
    method AppendDateTime(row: DisplayDateTime)
      requires Valid()
      modifies this
      ensures Valid()
      ensures dateTimes == Insert(old(dateTimes), old(nextDateTimeId), row) && nextDateTimeId == old(nextDateTimeId) + 1
      ensures LatestTime(dateTimes) == Found(TimeView(row.time, row.mode))
      ensures runningTexts == old(runningTexts) && nextTextId == old(nextTextId)
      ensures displayTemps == old(displayTemps) && nextDisplayTempId == old(nextDisplayTempId)
      ensures readings == old(readings) && nextReadingId == old(nextReadingId)
      ensures usage == old(usage) && nextUsageId == old(nextUsageId)
    {
      ReadAfterInsert(dateTimes, nextDateTimeId, row);
      InsertWellFormed(dateTimes, nextDateTimeId, row);
      dateTimes := Insert(dateTimes, nextDateTimeId, row);
      nextDateTimeId := nextDateTimeId + 1;
    }

    /** `INSERT INTO display_temperature` */
    method AppendDisplayTemperature(row: DisplayTemperature)
      requires Valid()
      modifies this
      ensures Valid()
      ensures displayTemps == Insert(old(displayTemps), old(nextDisplayTempId), row)
      ensures nextDisplayTempId == old(nextDisplayTempId) + 1
      ensures LatestTemperature(displayTemps) == Found(TemperatureView(row.temperature, row.mode))
      ensures runningTexts == old(runningTexts) && nextTextId == old(nextTextId)
      ensures dateTimes == old(dateTimes) && nextDateTimeId == old(nextDateTimeId)
      ensures readings == old(readings) && nextReadingId == old(nextReadingId)
      ensures usage == old(usage) && nextUsageId == old(nextUsageId)
    {
      ReadAfterInsert(displayTemps, nextDisplayTempId, row);
      InsertWellFormed(displayTemps, nextDisplayTempId, row);
      displayTemps := Insert(displayTemps, nextDisplayTempId, row);
      nextDisplayTempId := nextDisplayTempId + 1;
    }

    /** `INSERT INTO temperature_data`; a sensor row must carry mode `auto`. */
    method AppendReading(reading: Reading)
      requires Valid()
      requires reading.source == Sensor ==> reading.mode == AutoMode
      modifies this
      ensures Valid()
      ensures readings == Insert(old(readings), old(nextReadingId), reading) && nextReadingId == old(nextReadingId) + 1
      ensures runningTexts == old(runningTexts) && nextTextId == old(nextTextId)
      ensures dateTimes == old(dateTimes) && nextDateTimeId == old(nextDateTimeId)
      ensures displayTemps == old(displayTemps) && nextDisplayTempId == old(nextDisplayTempId)
      ensures usage == old(usage) && nextUsageId == old(nextUsageId)
    {
      InsertWellFormed(readings, nextReadingId, reading);
      readings := Insert(readings, nextReadingId, reading);
      nextReadingId := nextReadingId + 1;
    }

    /** `INSERT INTO feature_usage_history` */
    method Log(entry: UsageEntry)
      requires Valid()
      modifies this
      ensures Valid()
      ensures usage == Insert(old(usage), old(nextUsageId), entry) && nextUsageId == old(nextUsageId) + 1
      ensures runningTexts == old(runningTexts) && nextTextId == old(nextTextId)
      ensures dateTimes == old(dateTimes) && nextDateTimeId == old(nextDateTimeId)
      ensures displayTemps == old(displayTemps) && nextDisplayTempId == old(nextDisplayTempId)
      ensures readings == old(readings) && nextReadingId == old(nextReadingId)
    {
      InsertWellFormed(usage, nextUsageId, entry);
      usage := Insert(usage, nextUsageId, entry);
      nextUsageId := nextUsageId + 1;
    }

    /** `handleEditText`: one running-text row, then one usage row. When the stored time is later
        than every earlier row's, the device reads the new text next; on a tie the database may
        return either row, so nothing is promised then. */
    method HandleEditText(cred: Claims, text: string, nowMs: int) returns (reply: Reply)
      requires Valid()
      modifies this
      ensures Valid()
      ensures reply == Reply(200, TextSaved)
      ensures runningTexts == Insert(old(runningTexts), old(nextTextId), RunningText(text, cred.id, nowMs))
      ensures nextTextId == old(nextTextId) + 1
      ensures usage == Insert(old(usage), old(nextUsageId), TextUsage(cred, text, nowMs))
      ensures nextUsageId == old(nextUsageId) + 1
      ensures dateTimes == old(dateTimes) && nextDateTimeId == old(nextDateTimeId)
      ensures displayTemps == old(displayTemps) && nextDisplayTempId == old(nextDisplayTempId)
      ensures readings == old(readings) && nextReadingId == old(nextReadingId)
      ensures (forall i :: 0 <= i < |old(runningTexts)| ==> old(runningTexts)[i].data.updatedAt < nowMs) ==>
        LatestText(runningTexts) == Found(TextView(text, nowMs))
    {
      var row := RunningText(text, cred.id, nowMs);
      if forall i :: 0 <= i < |runningTexts| ==> runningTexts[i].data.updatedAt < nowMs {
        MaxByAppendGreatest(runningTexts, Row(nextTextId, row), UpdatedAt);
      }
      AppendText(row);
      Log(TextUsage(cred, text, nowMs));
      reply := Reply(200, TextSaved);
    }

    /** `handleDateTime`: the chosen date (or today's) with time `00:00:00`, then one usage row.
        Date and time share one table, so the time shown afterwards is midnight. */
    method HandleDateTime(cred: Claims, date: Option<string>, mode: string, today: string, nowMs: int)
      returns (reply: Reply)
      requires Valid()
      modifies this
      ensures Valid()
      ensures reply == Reply(200, DateSaved)
      ensures var finalDate := if Truthy(date) then date.value else today;
        && dateTimes == Insert(old(dateTimes), old(nextDateTimeId), DisplayDateTime(finalDate, MidnightTime, mode, nowMs, nowMs))
        && usage == Insert(old(usage), old(nextUsageId), DateUsage(cred, finalDate, mode, nowMs))
      ensures nextDateTimeId == old(nextDateTimeId) + 1 && nextUsageId == old(nextUsageId) + 1
      ensures runningTexts == old(runningTexts) && nextTextId == old(nextTextId)
      ensures displayTemps == old(displayTemps) && nextDisplayTempId == old(nextDisplayTempId)
      ensures readings == old(readings) && nextReadingId == old(nextReadingId)
      ensures LatestTime(dateTimes) == Found(TimeView(MidnightTime, mode))
    {
      var finalDate := if Truthy(date) then date.value else today;
      AppendDateTime(DisplayDateTime(finalDate, MidnightTime, mode, nowMs, nowMs));
      Log(DateUsage(cred, finalDate, mode, nowMs));
      reply := Reply(200, DateSaved);
    }

    /** `handleEditTime`: today's date with `hours:minutes:00`, then one usage row; a missing
        `time` throws before any insert and gives 500. */
    method HandleEditTime(cred: Claims, time: Option<string>, mode: string, today: string, nowMs: int)
      returns (reply: Reply)
      requires Valid()
      modifies this
      ensures Valid()
      ensures time.None? ==>
        && reply == Reply(500, TimeFailed)
        && dateTimes == old(dateTimes) && nextDateTimeId == old(nextDateTimeId)
        && usage == old(usage) && nextUsageId == old(nextUsageId)
      ensures time.Some? ==>
        && reply == Reply(200, TimeSaved)
        && dateTimes == Insert(old(dateTimes), old(nextDateTimeId),
             DisplayDateTime(today, FormattedTime(time.value), mode, nowMs, nowMs))
        && usage == Insert(old(usage), old(nextUsageId), TimeUsage(cred, FormattedTime(time.value), mode, nowMs))
        && nextDateTimeId == old(nextDateTimeId) + 1 && nextUsageId == old(nextUsageId) + 1
        && LatestTime(dateTimes) == Found(TimeView(FormattedTime(time.value), mode))
      ensures runningTexts == old(runningTexts) && nextTextId == old(nextTextId)
      ensures displayTemps == old(displayTemps) && nextDisplayTempId == old(nextDisplayTempId)
      ensures readings == old(readings) && nextReadingId == old(nextReadingId)
    {
      if time.None? {
        return Reply(500, TimeFailed);
      }
      var formatted := FormattedTime(time.value);
      AppendDateTime(DisplayDateTime(today, formatted, mode, nowMs, nowMs));
      Log(TimeUsage(cred, formatted, mode, nowMs));
      reply := Reply(200, TimeSaved);
    }

    /** `receiveSensorTemperature`: one log row and one display row, both tagged `auto`;
        no usage row. */
    method ReceiveSensorTemperature(temperature: string, nowMs: int) returns (reply: Reply)
      requires Valid()
      modifies this
      ensures Valid()
      ensures reply == Reply(200, SensorStored)
      ensures readings == Insert(old(readings), old(nextReadingId), Reading(temperature, AutoMode, Sensor))
      ensures displayTemps == Insert(old(displayTemps), old(nextDisplayTempId),
        DisplayTemperature(temperature, AutoMode, nowMs, nowMs))
      ensures nextReadingId == old(nextReadingId) + 1 && nextDisplayTempId == old(nextDisplayTempId) + 1
      ensures runningTexts == old(runningTexts) && nextTextId == old(nextTextId)
      ensures dateTimes == old(dateTimes) && nextDateTimeId == old(nextDateTimeId)
      ensures usage == old(usage) && nextUsageId == old(nextUsageId)
      ensures LatestTemperature(displayTemps) == Found(TemperatureView(temperature, AutoMode))
    {
      AppendReading(Reading(temperature, AutoMode, Sensor));
      AppendDisplayTemperature(DisplayTemperature(temperature, AutoMode, nowMs, nowMs));
      reply := Reply(200, SensorStored);
    }

    /** `handleTemperature`: the caller's value and mode go to the display table and to the
        log (source `user`), then one usage row. */
    method HandleTemperature(cred: Claims, temperature: string, mode: string, nowMs: int) returns (reply: Reply)
      requires Valid()
      modifies this
      ensures Valid()
      ensures reply == Reply(200, TemperatureSaved)
      ensures displayTemps == Insert(old(displayTemps), old(nextDisplayTempId),
        DisplayTemperature(temperature, mode, nowMs, nowMs))
      ensures readings == Insert(old(readings), old(nextReadingId), Reading(temperature, mode, User))
      ensures usage == Insert(old(usage), old(nextUsageId), TemperatureUsage(cred, temperature, mode, nowMs))
      ensures nextReadingId == old(nextReadingId) + 1 && nextDisplayTempId == old(nextDisplayTempId) + 1
      ensures nextUsageId == old(nextUsageId) + 1
      ensures runningTexts == old(runningTexts) && nextTextId == old(nextTextId)
      ensures dateTimes == old(dateTimes) && nextDateTimeId == old(nextDateTimeId)
      ensures LatestTemperature(displayTemps) == Found(TemperatureView(temperature, mode))
    {
      AppendDisplayTemperature(DisplayTemperature(temperature, mode, nowMs, nowMs));
      AppendReading(Reading(temperature, mode, User));
      Log(TemperatureUsage(cred, temperature, mode, nowMs));
      reply := Reply(200, TemperatureSaved);
    }

    /** `saveManualTemperature`: the log row and the usage row only; the display table is not
        touched, so what the device shows does not change. */
    method SaveManualTemperature(cred: Claims, temperature: string, mode: string, nowMs: int) returns (reply: Reply)
      requires Valid()
      modifies this
      ensures Valid()
      ensures reply == Reply(200, TemperatureSaved)
      ensures readings == Insert(old(readings), old(nextReadingId), Reading(temperature, mode, User))
      ensures usage == Insert(old(usage), old(nextUsageId), TemperatureUsage(cred, temperature, mode, nowMs))
      ensures nextReadingId == old(nextReadingId) + 1 && nextUsageId == old(nextUsageId) + 1
      ensures displayTemps == old(displayTemps) && nextDisplayTempId == old(nextDisplayTempId)
      ensures runningTexts == old(runningTexts) && nextTextId == old(nextTextId)
      ensures dateTimes == old(dateTimes) && nextDateTimeId == old(nextDateTimeId)
    {
      AppendReading(Reading(temperature, mode, User));
      Log(TemperatureUsage(cred, temperature, mode, nowMs));
      reply := Reply(200, TemperatureSaved);
    }

    /** `getFeatureUsage`: every usage row, newest `used_at` first. */
    function GetFeatureUsage(): (r: seq<Row<UsageEntry>>)
      reads this
      ensures SortedDesc(r, UsedAt)
      ensures multiset(r) == multiset(usage)
    {
      SortDesc(usage, UsedAt)
    }

    /** `deleteFeatureUsageById`: 400 without an id, 404 when no row has it, else that row goes. */
    method DeleteFeatureUsageById(id: Option<int>) returns (reply: Reply)
      requires Valid()
      modifies this
      ensures Valid()
      ensures id.None? ==> reply == Reply(400, UsageIdRequired) && usage == old(usage)
      ensures id.Some? && !HasId(old(usage), id.value) ==>
        reply == Reply(404, UsageNotFound) && usage == old(usage)
      ensures id.Some? && HasId(old(usage), id.value) ==>
        && reply == Reply(200, UsageDeleted)
        && usage == RemoveId(old(usage), id.value)
        && |usage| == |old(usage)| - 1
      ensures nextUsageId == old(nextUsageId)
      ensures runningTexts == old(runningTexts) && nextTextId == old(nextTextId)
      ensures dateTimes == old(dateTimes) && nextDateTimeId == old(nextDateTimeId)
      ensures displayTemps == old(displayTemps) && nextDisplayTempId == old(nextDisplayTempId)
      ensures readings == old(readings) && nextReadingId == old(nextReadingId)
    {
      if id.None? {
        return Reply(400, UsageIdRequired);
      }
      var before := usage;
      RemoveIdWellFormed(before, nextUsageId, id.value);
      RemoveIdAbsentSize(before, id.value);
      usage := RemoveId(before, id.value);
      if |usage| == |before| {
        RemoveIdAbsent(before, id.value);
        return Reply(404, UsageNotFound);
      }
      RemoveIdOne(before, nextUsageId, id.value);
      reply := Reply(200, UsageDeleted);
    }

    /** `deleteAllFeatureUsage` */
    method DeleteAllFeatureUsage() returns (reply: Reply)
      requires Valid()
      modifies this
      ensures Valid()
      ensures usage == [] && reply == Reply(200, AllUsageDeleted)
      ensures nextUsageId == old(nextUsageId)
      ensures runningTexts == old(runningTexts) && nextTextId == old(nextTextId)
      ensures dateTimes == old(dateTimes) && nextDateTimeId == old(nextDateTimeId)
      ensures displayTemps == old(displayTemps) && nextDisplayTempId == old(nextDisplayTempId)
      ensures readings == old(readings) && nextReadingId == old(nextReadingId)
    {
      usage := [];
      reply := Reply(200, AllUsageDeleted);
    }

    /** `handleSettingSpeedRunningText` */
    function GetSpeed(): Reply
      reads this
    {
      SpeedReply(speedSettings)
    }
  }
}
