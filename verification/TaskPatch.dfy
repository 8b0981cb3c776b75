/**
  A JSON patch of a task becomes a column update plus history rows.

  The loops of the service visit a Go map, so the order of the visit is arbitrary;
  the methods pick keys with `:|` and their contracts hold for every order.
 */
module TaskPatch {
  import opened Common

  // ---------------------------------------------------------------- data model

  datatype Field = Title | Description | Status | Priority | AssigneeId | DueDate

  datatype CalendarDate = CalendarDate(year: nat, month: nat, day: nat)

  /** A point in time, split so that the date part is what a DATE column keeps. */
  datatype Instant = Instant(date: CalendarDate, second: nat)

  /** A column value, a patched value, or a value of a history row. */
  datatype Value = Null | Text(s: string) | Number(n: int) | Time(t: Instant) | Date(d: CalendarDate)

  /** A row of table tasks, without its two timestamps. */
  datatype Task = Task(
    id: int,
    teamId: int,
    title: string,
    description: Option<string>,
    status: string,
    priority: string,
    assignee: Option<int>,
    createdBy: Option<int>,
    due: Option<Instant>)

  datatype Entry = Entry(taskId: int, changedBy: int, field: Field, before: Value, after: Value)

  /** A decoded JSON value; `JOther` covers booleans, arrays, objects and non-integral numbers. */
  datatype Json = JNull | JString(s: string) | JNumber(n: int) | JOther

  function TextOf(o: Option<string>): Value {
    match o case None => Null case Some(s) => Text(s)
  }

  function Column(t: Task, f: Field): Value {
    match f
    case Title => Text(t.title)
    case Description => TextOf(t.description)
    case Status => Text(t.status)
    case Priority => Text(t.priority)
    case AssigneeId => (match t.assignee case None => Null case Some(n) => Number(n))
    case DueDate => (match t.due case None => Null case Some(i) => Time(i))
  }

  /** What history shows of a value: a due date is formatted down to its day. */
  function Logged(v: Value): Value {
    match v case Time(t) => Date(t.date) case _ => v
  }

  /** The values a column can take, in a row or in a history row. */
  predicate Typed(f: Field, v: Value) {
    match f
    case Title => v.Text?
    case Description => v.Null? || v.Text?
    case Status => v.Text?
    case Priority => v.Text?
    case AssigneeId => v.Null? || v.Number?
    case DueDate => v.Null? || v.Time? || v.Date?
  }

  function SetColumn(t: Task, f: Field, v: Value): (r: Task)
    requires Typed(f, v)
    ensures Logged(Column(r, f)) == Logged(v)
    ensures !v.Date? ==> Column(r, f) == v
    ensures forall g :: g != f ==> Column(r, g) == Column(t, g)
    ensures r.id == t.id && r.teamId == t.teamId && r.createdBy == t.createdBy
  {
    match f
    case Title => t.(title := v.s)
    case Description => t.(description := if v.Null? then None else Some(v.s))
    case Status => t.(status := v.s)
    case Priority => t.(priority := v.s)
    case AssigneeId => t.(assignee := if v.Null? then None else Some(v.n))
    case DueDate =>
      t.(due := match v
                case Time(i) => Some(i)
                case Date(d) => Some(Instant(d, 0))
                case _ => None)
  }

  /** Two rows that no history row can tell apart. */
  predicate SameAtDates(a: Task, b: Task) {
    && a.id == b.id && a.teamId == b.teamId && a.createdBy == b.createdBy
    && Logged(Column(a, Title)) == Logged(Column(b, Title))
    && Logged(Column(a, Description)) == Logged(Column(b, Description))
    && Logged(Column(a, Status)) == Logged(Column(b, Status))
    && Logged(Column(a, Priority)) == Logged(Column(b, Priority))
    && Logged(Column(a, AssigneeId)) == Logged(Column(b, AssigneeId))
    && Logged(Column(a, DueDate)) == Logged(Column(b, DueDate))
  }

  lemma SameWhenColumnsAgree(a: Task, b: Task)
    requires a.id == b.id && a.teamId == b.teamId && a.createdBy == b.createdBy
    requires forall f :: Logged(Column(a, f)) == Logged(Column(b, f))
    ensures SameAtDates(a, b)
  {
  }

  // ---------------------------------------------------------------- parsing

  function FieldOf(name: string): Option<Field> {
    if name == "title" then Some(Title)
    else if name == "description" then Some(Description)
    else if name == "status" then Some(Status)
    else if name == "assignee_id" then Some(AssigneeId)
    else if name == "priority" then Some(Priority)
    else if name == "due_date" then Some(DueDate)
    else None
  }

  /** The JSON key, column and history name of a field. */
  function NameOf(f: Field): (name: string)
    ensures FieldOf(name) == Some(f)
  {
    match f
    case Title => "title"
    case Description => "description"
    case Status => "status"
    case AssigneeId => "assignee_id"
    case Priority => "priority"
    case DueDate => "due_date"
  }

  lemma NameIsUnique(k: string)
    requires FieldOf(k).Some?
    ensures k == NameOf(FieldOf(k).value)
  {
  }

  /** unicode.IsSpace */
  predicate IsSpace(c: char) {
    || '\t' <= c <= '\r' || c == ' ' || c == '\U{0085}' || c == '\U{00A0}' || c == '\U{1680}'
    || '\U{2000}' <= c <= '\U{200a}' || c == '\U{2028}' || c == '\U{2029}' || c == '\U{202f}'
    || c == '\U{205f}' || c == '\U{3000}'
  }

  predicate Blank(s: string) {
    forall i :: 0 <= i < |s| ==> IsSpace(s[i])
  }

  predicate ValidStatus(s: string) {
    s == "todo" || s == "in_progress" || s == "done"
  }

  predicate ValidPriority(s: string) {
    s == "low" || s == "medium" || s == "high"
  }

  predicate Digits(s: string) {
    forall i :: 0 <= i < |s| ==> '0' <= s[i] <= '9'
  }

  function Decimal(s: string): nat
    requires Digits(s)
  {
    if s == [] then 0 else 10 * Decimal(s[..|s| - 1]) + (s[|s| - 1] - '0') as nat
  }

  function DaysIn(year: nat, month: nat): nat {
    if month == 2 then
      (if year % 4 == 0 && (year % 100 != 0 || year % 400 == 0) then 29 else 28)
    else if month == 4 || month == 6 || month == 9 || month == 11 then 30
    else 31
  }

  /** time.Parse with layout 2006-01-02; the result is midnight of that day. */
  function ParseDate(s: string): Option<Instant> {
    if |s| != 10 || s[4] != '-' || s[7] != '-' || !Digits(s[..4]) || !Digits(s[5..7]) || !Digits(s[8..]) then None
    else
      var d := CalendarDate(Decimal(s[..4]), Decimal(s[5..7]), Decimal(s[8..]));
      if 1 <= d.month <= 12 && 1 <= d.day <= DaysIn(d.year, d.month) then Some(Instant(d, 0)) else None
  }

  /** json.Unmarshal into a string: null is accepted and leaves the empty string. */
  function AsString(j: Json): Option<string> {
    match j case JNull => Some("") case JString(s) => Some(s) case _ => None
  }

  predicate IsInt64(n: int) {
    -0x8000_0000_0000_0000 <= n < 0x8000_0000_0000_0000
  }

  /** The values that survive parsing. */
  predicate Legal(members: set<int>, f: Field, v: Value) {
    match f
    case Title => v.Text? && !Blank(v.s)
    case Description => v.Null? || v.Text?
    case Status => v.Text? && ValidStatus(v.s)
    case Priority => v.Text? && ValidPriority(v.s)
    case AssigneeId => v.Null? || (v.Number? && v.n in members)
    case DueDate => v.Null? || (v.Time? && v.t.second == 0)
  }

  /**
    The value of one patch key. `members` are the users of the task's team at the time of the
    look-up, `storeFails` says that the look-up of the assignee fails.
   */
  function ParseValue(members: set<int>, storeFails: bool, f: Field, j: Json): (r: Result<Value>)
    ensures r.Ok? ==> Legal(members, f, r.value)
    ensures r.Err? ==> r.error == BadRequest || (r.error == StoreError && storeFails)
  {
    match f
    case Title =>
      if AsString(j).None? || Blank(AsString(j).value) then Err(BadRequest) else Ok(Text(AsString(j).value))
    case Description =>
      (match j case JNull => Ok(Null) case JString(s) => Ok(Text(s)) case _ => Err(BadRequest))
    case Status =>
      if AsString(j).None? || !ValidStatus(AsString(j).value) then Err(BadRequest) else Ok(Text(AsString(j).value))
    case Priority =>
      if AsString(j).None? || !ValidPriority(AsString(j).value) then Err(BadRequest) else Ok(Text(AsString(j).value))
    case AssigneeId =>
      (match j
       case JNull => Ok(Null)
       case JNumber(n) =>
         if !IsInt64(n) then Err(BadRequest)
         else if storeFails then Err(StoreError)
         else if n !in members then Err(BadRequest)
         else Ok(Number(n))
       case _ => Err(BadRequest))
    case DueDate =>
      (match j
       case JNull => Ok(Null)
       case JString(s) => (match ParseDate(s) case None => Err(BadRequest) case Some(i) => Ok(Time(i)))
       case _ => Err(BadRequest))
  }

  function ParseKey(members: set<int>, storeFails: bool, key: string, j: Json): Result<Value> {
    match FieldOf(key) case None => Err(BadRequest) case Some(f) => ParseValue(members, storeFails, f, j)
  }

  /** Every outcome that some visiting order of the patch can have. */
  ghost predicate ParseOutcome(
    members: set<int>, storeFails: bool, raw: map<string, Json>, r: Result<map<Field, Value>>) {
    match r
    case Ok(patch) =>
      && raw != map[]
      && (forall k :: k in raw ==> FieldOf(k).Some?)
      && (forall f :: f in patch <==> NameOf(f) in raw)
      && (forall f :: f in patch ==> ParseValue(members, storeFails, f, raw[NameOf(f)]) == Ok(patch[f]))
    case Err(e) =>
      if raw == map[] then e == BadRequest
      else exists k :: k in raw && ParseKey(members, storeFails, k, raw[k]) == Err(e)
  }

  /** The loop has visited every key but those in `todo`. */
  ghost predicate Parsed(
    members: set<int>, storeFails: bool, raw: map<string, Json>, todo: set<string>, parsed: map<Field, Value>) {
    && todo <= raw.Keys
    && (forall k :: k in raw && k !in todo ==> FieldOf(k).Some?)
    && (forall f :: f in parsed <==> NameOf(f) in raw && NameOf(f) !in todo)
    && (forall f :: f in parsed ==> ParseValue(members, storeFails, f, raw[NameOf(f)]) == Ok(parsed[f]))
  }

  lemma ParsedIsLegal(members: set<int>, storeFails: bool, raw: map<string, Json>, patch: map<Field, Value>, f: Field)
    requires ParseOutcome(members, storeFails, raw, Ok(patch))
    requires f in patch
    ensures Legal(members, f, patch[f]) && Typed(f, patch[f])
  {
  }

  lemma EveryKeyParses(members: set<int>, storeFails: bool, raw: map<string, Json>, patch: map<Field, Value>, k: string)
    requires ParseOutcome(members, storeFails, raw, Ok(patch)) && k in raw
    ensures FieldOf(k).Some? && FieldOf(k).value in patch
    ensures ParseKey(members, storeFails, k, raw[k]) == Ok(patch[FieldOf(k).value])
  {
    NameIsUnique(k);
  }

  /** At the end of the loop. */
  lemma EverythingParsed(members: set<int>, storeFails: bool, raw: map<string, Json>, parsed: map<Field, Value>)
    requires Parsed(members, storeFails, raw, {}, parsed)
    ensures parsed == map[] <==> raw == map[]
    ensures raw != map[] ==> ParseOutcome(members, storeFails, raw, Ok(parsed))
    ensures forall k :: k in raw ==> ParseKey(members, storeFails, k, raw[k]).Ok?
    ensures forall f :: f in parsed ==> Legal(members, f, parsed[f])
  {
    if raw != map[] {
      forall k | k in raw ensures ParseKey(members, storeFails, k, raw[k]).Ok? && FieldOf(k).value in parsed {
        EveryKeyParses(members, storeFails, raw, parsed, k);
      }
      var key :| key in raw;
      assert FieldOf(key).value in parsed;
    }
  }

  // ---------------------------------------------------------------- what the API promises of a patch

  /** The last `width` decimal digits of a number. */
  function Padded(n: nat, width: nat): (s: string)
    ensures |s| == width && Digits(s)
  {
    if width == 0 then "" else Padded(n / 10, width - 1) + ['0' + (n % 10) as char]
  }

  /** YYYY-MM-DD */
  function FormatDate(d: CalendarDate): string {
    Padded(d.year, 4) + "-" + Padded(d.month, 2) + "-" + Padded(d.day, 2)
  }

  /** A day of the Gregorian calendar with a year of at most four digits. */
  predicate IsDay(d: CalendarDate) {
    && d.year <= 9999 && 1 <= d.month <= 12 && 1 <= d.day <= 31
    && (d.day == 31 ==> d.month in {1, 3, 5, 7, 8, 10, 12})
    && (d.month == 2 ==> d.day <= 29)
    && (d.month == 2 && d.day == 29 ==> d.year % 400 == 0 || (d.year % 4 == 0 && d.year % 100 != 0))
  }

  /** What each key may hold; `members` are the users of the task's team. */
  ghost predicate Acceptable(members: set<int>, key: string, j: Json) {
    if key == "title" then j.JString? && exists i :: 0 <= i < |j.s| && !IsSpace(j.s[i])
    else if key == "description" then j.JNull? || j.JString?
    else if key == "status" then j.JString? && (j.s == "todo" || j.s == "in_progress" || j.s == "done")
    else if key == "priority" then j.JString? && (j.s == "low" || j.s == "medium" || j.s == "high")
    else if key == "assignee_id" then
      j.JNull? || (j.JNumber? && j.n in members && -9223372036854775808 <= j.n <= 9223372036854775807)
    else if key == "due_date" then j.JNull? || (j.JString? && exists d :: IsDay(d) && j.s == FormatDate(d))
    else false
  }

  /** A patch is accepted; only a number as assignee needs a look-up, which may fail. */
  ghost predicate Accepted(members: set<int>, storeFails: bool, raw: map<string, Json>) {
    && raw != map[]
    && (forall k :: k in raw ==> Acceptable(members, k, raw[k]))
    && !(storeFails && "assignee_id" in raw && raw["assignee_id"].JNumber?)
  }

  /** A value as JSON shows it; a due date is shown as its day. */
  function JsonOf(v: Value): Json {
    match v
    case Null => JNull
    case Text(s) => JString(s)
    case Number(n) => JNumber(n)
    case Time(t) => JString(FormatDate(t.date))
    case Date(d) => JString(FormatDate(d))
  }

  predicate IsMidnight(t: Instant) {
    IsDay(t.date) && t.second == 0
  }

  /** The patch has the keys of the JSON object and holds its values. */
  ghost predicate Holds(raw: map<string, Json>, patch: map<Field, Value>) {
    && (Title in patch <==> "title" in raw)
    && (Title in patch ==> patch[Title].Text? && raw["title"] == JsonOf(patch[Title]))
    && (Description in patch <==> "description" in raw)
    && (Description in patch ==>
      (patch[Description].Null? || patch[Description].Text?) && raw["description"] == JsonOf(patch[Description]))
    && (Status in patch <==> "status" in raw)
    && (Status in patch ==> patch[Status].Text? && raw["status"] == JsonOf(patch[Status]))
    && (Priority in patch <==> "priority" in raw)
    && (Priority in patch ==> patch[Priority].Text? && raw["priority"] == JsonOf(patch[Priority]))
    && (AssigneeId in patch <==> "assignee_id" in raw)
    && (AssigneeId in patch ==>
      (patch[AssigneeId].Null? || patch[AssigneeId].Number?) && raw["assignee_id"] == JsonOf(patch[AssigneeId]))
    && (DueDate in patch <==> "due_date" in raw)
    && (DueDate in patch ==>
      && (patch[DueDate].Null? || (patch[DueDate].Time? && IsMidnight(patch[DueDate].t)))
      && raw["due_date"] == JsonOf(patch[DueDate]))
  }

  /** Owners and admins may patch everything, members the status and the assignee. */
  predicate MayPatch(role: Role, raw: map<string, Json>) {
    role.Owner? || role.Admin? || (role.Member? && raw.Keys <= {"status", "assignee_id"})
  }

  /** The row `after` is the row `before` with the values of the JSON object written over it. */
  ghost predicate Carries(raw: map<string, Json>, before: Task, after: Task) {
    && after.id == before.id && after.teamId == before.teamId && after.createdBy == before.createdBy
    && (if "title" in raw then raw["title"] == JString(after.title) else after.title == before.title)
    && (if "description" in raw
        then raw["description"] == match after.description case None => JNull case Some(s) => JString(s)
        else after.description == before.description)
    && (if "status" in raw then raw["status"] == JString(after.status) else after.status == before.status)
    && (if "priority" in raw then raw["priority"] == JString(after.priority) else after.priority == before.priority)
    && (if "assignee_id" in raw
        then raw["assignee_id"] == match after.assignee case None => JNull case Some(n) => JNumber(n)
        else after.assignee == before.assignee)
    && (if "due_date" in raw
        then raw["due_date"] == match after.due case None => JNull case Some(i) => JString(FormatDate(i.date))
        else after.due == before.due)
  }

  // ---------------------------------------------------------------- parsing keeps the promise

  predicate Fits(n: nat, width: nat) {
    if width == 0 then n == 0 else Fits(n / 10, width - 1)
  }

  lemma LastDigit(m: nat, c: char, width: nat)
    requires '0' <= c <= '9'
    ensures Padded(10 * m + (c - '0') as nat, width + 1) == Padded(m, width) + [c]
    ensures Fits(10 * m + (c - '0') as nat, width + 1) == Fits(m, width)
  {
    var d := (c - '0') as nat;
    assert (10 * m + d) / 10 == m && (10 * m + d) % 10 == d;
  }

  lemma {:induction false} DigitsRoundTrip(s: string)
    requires Digits(s)
    ensures Padded(Decimal(s), |s|) == s && Fits(Decimal(s), |s|)
  {
    if s != [] {
      var n := |s| - 1;
      DigitsRoundTrip(s[..n]);
      LastDigit(Decimal(s[..n]), s[n], n);
      assert s == s[..n] + [s[n]];
    }
  }

  lemma {:induction false} NumberRoundTrip(n: nat, width: nat)
    requires Fits(n, width)
    ensures Decimal(Padded(n, width)) == n
  {
    if width > 0 {
      NumberRoundTrip(n / 10, width - 1);
      assert Padded(n, width)[..width - 1] == Padded(n / 10, width - 1);
    }
  }

  lemma FitsMeans(n: nat)
    ensures Fits(n, 2) <==> n <= 99
    ensures Fits(n, 4) <==> n <= 9999
  {
    assert Fits(n, 2) == Fits(n / 10, 1) == Fits(n / 10 / 10, 0);
    assert Fits(n, 4) == Fits(n / 10, 3) == Fits(n / 10 / 10, 2) == Fits(n / 10 / 10 / 10, 1);
    assert Fits(n, 4) == Fits(n / 10 / 10 / 10 / 10, 0);
  }

  lemma DayMeans(d: CalendarDate)
    requires d.year <= 9999
    ensures IsDay(d) <==> 1 <= d.month <= 12 && 1 <= d.day <= DaysIn(d.year, d.month)
  {
    assert d.year % 400 == 0 ==> d.year % 4 == 0;
  }

  lemma ParsedDate(s: string)
    requires ParseDate(s).Some?
    ensures var i := ParseDate(s).value; i.second == 0 && IsDay(i.date) && FormatDate(i.date) == s
  {
    DigitsRoundTrip(s[..4]);
    DigitsRoundTrip(s[5..7]);
    DigitsRoundTrip(s[8..]);
    var d := ParseDate(s).value.date;
    FitsMeans(d.year);
    DayMeans(d);
    assert s == s[..4] + "-" + s[5..7] + "-" + s[8..];
  }

  lemma DateParts(d: CalendarDate)
    ensures var s := FormatDate(d);
      && |s| == 10 && s[4] == '-' && s[7] == '-'
      && s[..4] == Padded(d.year, 4) && s[5..7] == Padded(d.month, 2) && s[8..] == Padded(d.day, 2)
  {
  }

  lemma NumbersRoundTrip(d: CalendarDate)
    requires IsDay(d)
    ensures Decimal(Padded(d.year, 4)) == d.year && Decimal(Padded(d.month, 2)) == d.month
    ensures Decimal(Padded(d.day, 2)) == d.day
  {
    FitsMeans(d.year);
    FitsMeans(d.month);
    FitsMeans(d.day);
    NumberRoundTrip(d.year, 4);
    NumberRoundTrip(d.month, 2);
    NumberRoundTrip(d.day, 2);
  }

  lemma FormattedDate(d: CalendarDate)
    requires IsDay(d)
    ensures ParseDate(FormatDate(d)) == Some(Instant(d, 0))
  {
    NumbersRoundTrip(d);
    DateParts(d);
    DayMeans(d);
  }

  /** Exactly the days written YYYY-MM-DD are read, each as midnight of that day. */
  lemma DatesAreRead(s: string, i: Instant)
    ensures ParseDate(s) == Some(i) <==> i.second == 0 && IsDay(i.date) && FormatDate(i.date) == s
  {
    if ParseDate(s).Some? { ParsedDate(s); }
    if IsDay(i.date) { FormattedDate(i.date); }
  }

  lemma DateIsAccepted(s: string)
    ensures ParseDate(s).Some? <==> exists d :: IsDay(d) && s == FormatDate(d)
  {
    if ParseDate(s).Some? { ParsedDate(s); }
    if d :| IsDay(d) && s == FormatDate(d) { FormattedDate(d); }
  }

  lemma ValueIsAccepted(members: set<int>, storeFails: bool, f: Field, j: Json)
    ensures ParseValue(members, storeFails, f, j).Ok? <==>
            Acceptable(members, NameOf(f), j) && !(storeFails && f == AssigneeId && j.JNumber?)
  {
    match f
    case Title =>
    case Description =>
    case Status =>
    case Priority =>
    case AssigneeId =>
    case DueDate => if j.JString? { DateIsAccepted(j.s); }
  }

  lemma KeyIsAccepted(members: set<int>, storeFails: bool, key: string, j: Json)
    ensures ParseKey(members, storeFails, key, j).Ok? <==>
            Acceptable(members, key, j) && !(storeFails && key == "assignee_id" && j.JNumber?)
  {
    if FieldOf(key).Some? {
      NameIsUnique(key);
      ValueIsAccepted(members, storeFails, FieldOf(key).value, j);
    }
  }

  lemma PatchIsAccepted(members: set<int>, storeFails: bool, raw: map<string, Json>)
    ensures (raw != map[] && forall k :: k in raw ==> ParseKey(members, storeFails, k, raw[k]).Ok?)
            <==> Accepted(members, storeFails, raw)
  {
    forall k | k in raw
      ensures ParseKey(members, storeFails, k, raw[k]).Ok? <==>
              Acceptable(members, k, raw[k]) && !(storeFails && k == "assignee_id" && raw[k].JNumber?)
    {
      KeyIsAccepted(members, storeFails, k, raw[k]);
    }
  }

  /** A value is read as JSON shows it; a title is not null, because null reads as a blank one. */
  lemma ValueIsRead(members: set<int>, storeFails: bool, f: Field, j: Json)
    requires ParseValue(members, storeFails, f, j).Ok?
    ensures var v := ParseValue(members, storeFails, f, j).value;
      Typed(f, v) && !v.Date? && j == JsonOf(v) && (v.Time? ==> IsMidnight(v.t))
  {
    if f == DueDate && j.JString? { ParsedDate(j.s); }
  }

  lemma PatchHolds(members: set<int>, storeFails: bool, raw: map<string, Json>, patch: map<Field, Value>)
    requires ParseOutcome(members, storeFails, raw, Ok(patch))
    ensures Holds(raw, patch)
  {
    forall f | f in patch
      ensures Typed(f, patch[f]) && !patch[f].Date? && raw[NameOf(f)] == JsonOf(patch[f])
      ensures patch[f].Time? ==> IsMidnight(patch[f].t)
    {
      ValueIsRead(members, storeFails, f, raw[NameOf(f)]);
    }
    KeysOfPatch(members, storeFails, raw, patch);
  }

  lemma KeysOfPatch(members: set<int>, storeFails: bool, raw: map<string, Json>, patch: map<Field, Value>)
    requires ParseOutcome(members, storeFails, raw, Ok(patch))
    ensures (Title in patch <==> "title" in raw) && (Description in patch <==> "description" in raw)
    ensures (Status in patch <==> "status" in raw) && (Priority in patch <==> "priority" in raw)
    ensures (AssigneeId in patch <==> "assignee_id" in raw) && (DueDate in patch <==> "due_date" in raw)
  {
    assert NameOf(Title) == "title" && NameOf(Description) == "description" && NameOf(Status) == "status";
    assert NameOf(Priority) == "priority" && NameOf(AssigneeId) == "assignee_id" && NameOf(DueDate) == "due_date";
  }

  method ParseTaskPatch(members: set<int>, storeFails: bool, raw: map<string, Json>)
    returns (r: Result<map<Field, Value>>)
    ensures ParseOutcome(members, storeFails, raw, r)
    ensures r.Ok? <==> Accepted(members, storeFails, raw)
    ensures r.Ok? ==> Holds(raw, r.value)
    ensures r.Ok? ==> r.value != map[] && forall f :: f in r.value ==> Legal(members, f, r.value[f])
    ensures r.Err? ==> r.error == BadRequest || (r.error == StoreError && storeFails)
  {
    PatchIsAccepted(members, storeFails, raw);
    var parsed: map<Field, Value> := map[];
    var todo := raw.Keys;
    while todo != {}
      invariant Parsed(members, storeFails, raw, todo, parsed)
    {
      var key :| key in todo;
      if FieldOf(key).None? {
        assert ParseKey(members, storeFails, key, raw[key]) == Err(BadRequest);
        return Err(BadRequest);
      }
      var f := FieldOf(key).value;
      NameIsUnique(key);
      var v := ParseValue(members, storeFails, f, raw[key]);
      if v.Err? {
        assert ParseKey(members, storeFails, key, raw[key]) == Err(v.error);
        return Err(v.error);
      }
      parsed, todo := parsed[f := v.value], todo - {key};
    }
    EverythingParsed(members, storeFails, raw, parsed);
    if |parsed| == 0 {
      return Err(BadRequest);
    }
    PatchHolds(members, storeFails, raw, parsed);
    return Ok(parsed);
  }

  // ---------------------------------------------------------------- permissions

  function AllowedFields(role: Role): set<Field> {
    match role
    case Owner => {Title, Description, Status, AssigneeId, Priority, DueDate}
    case Admin => {Title, Description, Status, AssigneeId, Priority, DueDate}
    case Member => {Status, AssigneeId}
    case Other(_) => {}
  }

  lemma OutcomeIsAccepted(members: set<int>, storeFails: bool, raw: map<string, Json>, r: Result<map<Field, Value>>)
    requires ParseOutcome(members, storeFails, raw, r)
    ensures r.Ok? <==> Accepted(members, storeFails, raw)
    ensures r.Ok? ==> Holds(raw, r.value)
  {
    PatchIsAccepted(members, storeFails, raw);
    if r.Ok? {
      PatchHolds(members, storeFails, raw, r.value);
      forall k | k in raw ensures ParseKey(members, storeFails, k, raw[k]).Ok? {
        EveryKeyParses(members, storeFails, raw, r.value, k);
      }
    }
  }

  /** The permission check lets a parsed patch pass exactly when the role may patch its keys. */
  lemma AllowedMeans(members: set<int>, raw: map<string, Json>, patch: map<Field, Value>, role: Role)
    requires Accepted(members, false, raw) && Holds(raw, patch)
    ensures patch.Keys <= AllowedFields(role) <==> MayPatch(role, raw)
  {
    var k :| k in raw;
    assert Acceptable(members, k, raw[k]);
    match role
    case Member =>
      if patch.Keys <= {Status, AssigneeId} {
        forall k | k in raw ensures k == "status" || k == "assignee_id" { assert Acceptable(members, k, raw[k]); }
      }
      if raw.Keys <= {"status", "assignee_id"} {
        forall f | f in patch ensures f == Status || f == AssigneeId {
          assert f == Title ==> "title" in raw.Keys;
          assert f == Description ==> "description" in raw.Keys;
          assert f == Priority ==> "priority" in raw.Keys;
          assert f == DueDate ==> "due_date" in raw.Keys;
        }
      }
    case Other(_) => assert patch.Keys != {};
    case _ => forall f | f in patch ensures f in AllowedFields(role) { IsField(f); }
  }

  // ---------------------------------------------------------------- the diff

  /**
    The meaning of a diff: exactly the patched columns whose logged value changes are updated,
    and each of them has exactly one history row carrying the old and the new value.
   */
  ghost predicate IsDiff(
    task: Task, user: int, patch: map<Field, Value>, updates: map<Field, Value>, entries: seq<Entry>) {
    && (forall f :: f in updates <==> f in patch && Logged(patch[f]) != Logged(Column(task, f)))
    && (forall f :: f in updates ==> updates[f] == patch[f])
    && OneEntryPerUpdate(task, user, updates, entries)
  }

  ghost predicate OneEntryPerUpdate(task: Task, user: int, updates: map<Field, Value>, entries: seq<Entry>) {
    && FieldsOf(entries) == updates.Keys
    && Distinct(entries)
    && forall i :: 0 <= i < |entries| ==>
      entries[i] == EntryFor(task, user, entries[i].field, updates[entries[i].field])
  }

  ghost predicate Distinct(entries: seq<Entry>) {
    forall i, j :: 0 <= i < j < |entries| ==> entries[i].field != entries[j].field
  }

  /** The columns that a sequence of history rows names. */
  function FieldsOf(entries: seq<Entry>): (r: set<Field>)
    ensures forall i :: 0 <= i < |entries| ==> entries[i].field in r
  {
    if entries == [] then {} else FieldsOf(entries[..|entries| - 1]) + {entries[|entries| - 1].field}
  }

  lemma {:induction false} EntryOf(entries: seq<Entry>, f: Field) returns (i: nat)
    requires f in FieldsOf(entries)
    ensures i < |entries| && entries[i].field == f
  {
    i := |entries| - 1;
    if entries[i].field != f {
      i := EntryOf(entries[..i], f);
    }
  }

  function EntryFor(task: Task, user: int, f: Field, v: Value): Entry {
    Entry(task.id, user, f, Logged(Column(task, f)), Logged(v))
  }

  /** Values as the parser leaves them, before any formatting. */
  ghost predicate PatchTyped(patch: map<Field, Value>) {
    forall f :: f in patch ==> Typed(f, patch[f]) && !patch[f].Date?
  }

  /** One case of the switch: the column value, and the two values of the history row. */
  function Change(task: Task, key: Field, val: Value): (r: Option<(Value, Value, Value)>)
    requires Typed(key, val) && !val.Date?
    ensures r.None? <==> Logged(val) == Logged(Column(task, key))
    ensures r.Some? ==> r.value == (val, Logged(Column(task, key)), Logged(val))
  {
    match key
    case Title =>
      if task.title == val.s then None
      else Some((Text(val.s), Text(task.title), Text(val.s)))
    case Description =>
      var oldValue := if task.description.Some? then Text(task.description.value) else Null;
      if val.Null? then
        if task.description.None? then None else Some((Null, oldValue, Null))
      else if task.description.Some? && task.description.value == val.s then None
      else Some((Text(val.s), oldValue, Text(val.s)))
    case Status =>
      if task.status == val.s then None
      else Some((Text(val.s), Text(task.status), Text(val.s)))
    case Priority =>
      if task.priority == val.s then None
      else Some((Text(val.s), Text(task.priority), Text(val.s)))
    case AssigneeId =>
      var oldValue := if task.assignee.Some? then Number(task.assignee.value) else Null;
      if val.Null? then
        if task.assignee.None? then None else Some((Null, oldValue, Null))
      else if task.assignee.Some? && task.assignee.value == val.n then None
      else Some((Number(val.n), oldValue, Number(val.n)))
    case DueDate =>
      var oldValue := if task.due.Some? then Date(task.due.value.date) else Null;
      if val.Null? then
        if task.due.None? then None else Some((Null, oldValue, Null))
      else if task.due.Some? && task.due.value.date == val.t.date then None
      else Some((Time(val.t), oldValue, Date(val.t.date)))
  }

  method BuildTaskDiffEntries(task: Task, user: int, parsed: map<Field, Value>)
    returns (updates: map<Field, Value>, entries: seq<Entry>)
    requires PatchTyped(parsed)
    ensures IsDiff(task, user, parsed, updates, entries)
    ensures |entries| == |updates|
  {
    updates, entries := map[], [];
    var todo := parsed.Keys;
    while todo != {}
      invariant todo <= parsed.Keys
      invariant forall f :: f in updates <==> f in parsed && f !in todo && Logged(parsed[f]) != Logged(Column(task, f))
      invariant forall f :: f in updates ==> updates[f] == parsed[f]
      invariant OneEntryPerUpdate(task, user, updates, entries)
      invariant |entries| == |updates|
    {
      var key :| key in todo;
      todo := todo - {key};
      match Change(task, key, parsed[key]) {
        case None =>
        case Some((val, oldValue, newValue)) =>
          updates := updates[key := val];
          entries := entries + [Entry(task.id, user, key, oldValue, newValue)];
      }
    }
  }

  // ---------------------------------------------------------------- the column update

  /** The value of a column after an update. */
  function Updated(t: Task, u: map<Field, Value>, f: Field): Value {
    if f in u then u[f] else Column(t, f)
  }

  function TextIn(v: Value): Option<string>
    requires v.Null? || v.Text?
  {
    if v.Null? then None else Some(v.s)
  }

  /** UPDATE tasks SET ... with one assignment per key. */
  function Apply(t: Task, u: map<Field, Value>): (r: Task)
    requires PatchTyped(u)
    ensures forall f :: Column(r, f) == Updated(t, u, f)
    ensures r.id == t.id && r.teamId == t.teamId && r.createdBy == t.createdBy
  {
    var assignee := Updated(t, u, AssigneeId);
    var due := Updated(t, u, DueDate);
    Task(t.id, t.teamId,
         Updated(t, u, Title).s,
         TextIn(Updated(t, u, Description)),
         Updated(t, u, Status).s,
         Updated(t, u, Priority).s,
         if assignee.Null? then None else Some(assignee.n),
         t.createdBy,
         if due.Null? then None else Some(due.t))
  }

  /** The assignments of a SET clause, executed from left to right. */
  function ExecSet(t: Task, cols: seq<Field>, args: seq<Value>): Task
    requires |cols| == |args|
    requires forall i :: 0 <= i < |cols| ==> Typed(cols[i], args[i])
  {
    if cols == [] then t
    else SetColumn(ExecSet(t, cols[..|cols| - 1], args[..|args| - 1]), cols[|cols| - 1], args[|args| - 1])
  }

  lemma RowsEqual(a: Task, b: Task)
    requires a.id == b.id && a.teamId == b.teamId && a.createdBy == b.createdBy
    requires forall f :: Column(a, f) == Column(b, f)
    ensures a == b
  {
    assert Column(a, Title) == Column(b, Title) && Column(a, Description) == Column(b, Description);
    assert Column(a, Status) == Column(b, Status) && Column(a, Priority) == Column(b, Priority);
    assert Column(a, AssigneeId) == Column(b, AssigneeId) && Column(a, DueDate) == Column(b, DueDate);
  }

  /** A SET clause that updates every row as the map of fields says. */
  ghost predicate Denotes(cols: seq<Field>, args: seq<Value>, fields: map<Field, Value>) {
    && |cols| == |args| == |fields|
    && PatchTyped(fields)
    && (forall i :: 0 <= i < |cols| ==> Typed(cols[i], args[i]))
    && forall t :: ExecSet(t, cols, args) == Apply(t, fields)
  }

  lemma DenotesNothing()
    ensures Denotes([], [], map[])
  {
    forall t ensures ExecSet(t, [], []) == Apply(t, map[]) { RowsEqual(t, Apply(t, map[])); }
  }

  lemma SetAfterApply(t: Task, fields: map<Field, Value>, k: Field, v: Value)
    requires PatchTyped(fields) && k !in fields && Typed(k, v) && !v.Date?
    ensures PatchTyped(fields[k := v])
    ensures SetColumn(Apply(t, fields), k, v) == Apply(t, fields[k := v])
  {
  }

  lemma DenotesOneMore(cols: seq<Field>, args: seq<Value>, fields: map<Field, Value>, k: Field, v: Value)
    requires Denotes(cols, args, fields) && k !in fields && Typed(k, v) && !v.Date?
    ensures Denotes(cols + [k], args + [v], fields[k := v])
  {
    var cs, as_, fs := cols + [k], args + [v], fields[k := v];
    assert cs[..|cs| - 1] == cols && as_[..|as_| - 1] == args;
    forall t ensures ExecSet(t, cs, as_) == Apply(t, fs) {
      SetAfterApply(t, fields, k, v);
    }
  }

  /** The slices that UpdateTx builds, in any order, denote the same row update. */
  method BuildSetClause(fields: map<Field, Value>) returns (r: Result<(seq<Field>, seq<Value>)>)
    requires PatchTyped(fields)
    ensures r.Err? <==> fields == map[]
    ensures r.Ok? ==> Denotes(r.value.0, r.value.1, fields)
  {
    if |fields| == 0 {
      return Err(StoreError);
    }
    var cols: seq<Field>, args: seq<Value> := [], [];
    var todo := fields.Keys;
    ghost var done: map<Field, Value> := map[];
    DenotesNothing();
    while todo != {}
      invariant todo <= fields.Keys
      invariant done == map f | f in fields && f !in todo :: fields[f]
      invariant Denotes(cols, args, done)
    {
      var k :| k in todo;
      DenotesOneMore(cols, args, done, k, fields[k]);
      cols, args, done, todo := cols + [k], args + [fields[k]], done[k := fields[k]], todo - {k};
    }
    assert done == fields;
    return Ok((cols, args));
  }

  // ---------------------------------------------------------------- what a patch does

  /** The row agrees with the patch afterwards and nothing else changed. */
  lemma PatchTakesEffect(
    task: Task, user: int, patch: map<Field, Value>, updates: map<Field, Value>, entries: seq<Entry>)
    requires PatchTyped(patch) && IsDiff(task, user, patch, updates, entries)
    ensures PatchTyped(updates)
    ensures var row := Apply(task, updates);
      && row.id == task.id && row.teamId == task.teamId && row.createdBy == task.createdBy
      && (forall f :: f in patch ==> Logged(Column(row, f)) == Logged(patch[f]))
      && (forall f :: f !in updates ==> Column(row, f) == Column(task, f))
      && (forall f :: f in updates ==> Logged(Column(row, f)) != Logged(Column(task, f)))
  {
    forall f | f in updates ensures Typed(f, updates[f]) && !updates[f].Date? { assert f in patch; }
    assert forall f :: f in patch ==> f in updates || Logged(patch[f]) == Logged(Column(task, f));
  }

  lemma HoldsTyped(raw: map<string, Json>, patch: map<Field, Value>)
    requires Holds(raw, patch)
    ensures PatchTyped(patch)
  {
    forall f | f in patch ensures Typed(f, patch[f]) && !patch[f].Date? {
      match f case Title => case Description => case Status => case Priority => case AssigneeId => case DueDate =>
    }
  }

  /** The updated row carries the values of the JSON object, and every other column is as before. */
  lemma PatchIsCarried(
    raw: map<string, Json>, task: Task, user: int, patch: map<Field, Value>, updates: map<Field, Value>,
    entries: seq<Entry>)
    requires Holds(raw, patch) && IsDiff(task, user, patch, updates, entries)
    ensures PatchTyped(updates) && Carries(raw, task, Apply(task, updates))
  {
    HoldsTyped(raw, patch);
    PatchTakesEffect(task, user, patch, updates, entries);
    var row := Apply(task, updates);
    assert Column(row, Title) == Updated(task, updates, Title);
    assert Column(row, Description) == Updated(task, updates, Description);
    assert Column(row, Status) == Updated(task, updates, Status);
    assert Column(row, Priority) == Updated(task, updates, Priority);
    assert Column(row, AssigneeId) == Updated(task, updates, AssigneeId);
    assert Column(row, DueDate) == Updated(task, updates, DueDate);
  }

  lemma UpdateNothing(task: Task)
    ensures Apply(task, map[]) == task
  {
    RowsEqual(task, Apply(task, map[]));
  }

  lemma FormatIsInjective(d: CalendarDate, e: CalendarDate)
    requires IsDay(d) && IsDay(e) && FormatDate(d) == FormatDate(e)
    ensures d == e
  {
    FormattedDate(d);
    FormattedDate(e);
  }

  /** A patch is diffed to nothing when the row carries its values already, and only then. */
  lemma EmptyDiff(
    raw: map<string, Json>, task: Task, user: int, patch: map<Field, Value>, updates: map<Field, Value>,
    entries: seq<Entry>)
    requires Holds(raw, patch) && IsDiff(task, user, patch, updates, entries)
    ensures updates == map[] ==> Carries(raw, task, task)
    ensures Carries(raw, task, task) && (task.due.Some? ==> IsDay(task.due.value.date)) ==> updates == map[]
  {
    if updates == map[] {
      PatchIsCarried(raw, task, user, patch, updates, entries);
      UpdateNothing(task);
    } else if Carries(raw, task, task) && (task.due.Some? ==> IsDay(task.due.value.date)) {
      var f :| f in updates;
      HoldsTyped(raw, patch);
      if f == DueDate && patch[f].Time? {
        FormatIsInjective(patch[f].t.date, task.due.value.date);
      }
      assert false;
    }
  }

  /** The history rows name exactly the updated columns, each of them once. */
  lemma EntriesNameUpdates(
    task: Task, user: int, patch: map<Field, Value>, updates: map<Field, Value>, entries: seq<Entry>)
    requires IsDiff(task, user, patch, updates, entries)
    ensures |entries| == |updates|
    ensures forall f :: f in updates <==> exists i :: 0 <= i < |entries| && entries[i].field == f
    ensures forall i, j :: 0 <= i < j < |entries| ==> entries[i].field != entries[j].field
  {
    CountFields(entries);
    assert |updates| == |updates.Keys|;
    forall f | f in updates ensures exists i :: 0 <= i < |entries| && entries[i].field == f {
      var i := EntryOf(entries, f);
    }
  }

  lemma {:induction false} CountFields(entries: seq<Entry>)
    requires Distinct(entries)
    ensures |FieldsOf(entries)| == |entries|
  {
    if entries != [] {
      var n := |entries| - 1;
      CountFields(entries[..n]);
      if entries[n].field in FieldsOf(entries[..n]) {
        var i := EntryOf(entries[..n], entries[n].field);
        assert false;
      }
    }
  }

  /** Old values written back, latest row first. */
  function Undo(t: Task, entries: seq<Entry>): Task
    requires forall i :: 0 <= i < |entries| ==> Typed(entries[i].field, entries[i].before)
    decreases |entries|
  {
    if entries == [] then t
    else Undo(SetColumn(t, entries[|entries| - 1].field, entries[|entries| - 1].before), entries[..|entries| - 1])
  }

  lemma {:induction false} UndoColumn(t: Task, entries: seq<Entry>, f: Field)
    requires forall i :: 0 <= i < |entries| ==> Typed(entries[i].field, entries[i].before)
    requires Distinct(entries)
    ensures Undo(t, entries).id == t.id && Undo(t, entries).teamId == t.teamId
    ensures Undo(t, entries).createdBy == t.createdBy
    ensures (forall i :: 0 <= i < |entries| ==> entries[i].field != f) ==>
      Logged(Column(Undo(t, entries), f)) == Logged(Column(t, f))
    ensures forall i :: 0 <= i < |entries| && entries[i].field == f ==>
      Logged(Column(Undo(t, entries), f)) == Logged(entries[i].before)
    decreases |entries|
  {
    if entries != [] {
      var n := |entries| - 1;
      UndoColumn(SetColumn(t, entries[n].field, entries[n].before), entries[..n], f);
      assert forall i :: 0 <= i < n ==> entries[..n][i] == entries[i];
    }
  }

  lemma UndoRestoresColumn(task: Task, user: int, updates: map<Field, Value>, entries: seq<Entry>, f: Field)
    requires PatchTyped(updates) && OneEntryPerUpdate(task, user, updates, entries)
    requires forall i :: 0 <= i < |entries| ==> Typed(entries[i].field, entries[i].before)
    ensures Logged(Column(Undo(Apply(task, updates), entries), f)) == Logged(Column(task, f))
  {
    UndoColumn(Apply(task, updates), entries, f);
    if f in updates {
      var i := EntryOf(entries, f);
    }
  }

  /** Writing the old values back in reverse restores the row, down to the day of its due date. */
  lemma UndoRestores(task: Task, user: int, patch: map<Field, Value>, updates: map<Field, Value>, entries: seq<Entry>)
    requires PatchTyped(patch) && IsDiff(task, user, patch, updates, entries)
    ensures PatchTyped(updates) && forall i :: 0 <= i < |entries| ==> Typed(entries[i].field, entries[i].before)
    ensures SameAtDates(Undo(Apply(task, updates), entries), task)
  {
    PatchTakesEffect(task, user, patch, updates, entries);
    BeforeTyped(task, user, updates, entries);
    var row := Undo(Apply(task, updates), entries);
    forall f ensures Logged(Column(row, f)) == Logged(Column(task, f)) {
      UndoRestoresColumn(task, user, updates, entries, f);
    }
    UndoColumn(Apply(task, updates), entries, Title);
    SameWhenColumnsAgree(row, task);
  }

  lemma BeforeTyped(task: Task, user: int, updates: map<Field, Value>, entries: seq<Entry>)
    requires OneEntryPerUpdate(task, user, updates, entries)
    ensures forall i :: 0 <= i < |entries| ==> Typed(entries[i].field, entries[i].before)
  {
    forall i | 0 <= i < |entries| ensures Typed(entries[i].field, entries[i].before) {
      assert entries[i] == EntryFor(task, user, entries[i].field, updates[entries[i].field]);
    }
  }

  /** Repeating a patch that was applied changes nothing and logs nothing. */
  lemma RepeatedPatchIsEmpty(
    task: Task, user: int, patch: map<Field, Value>, updates: map<Field, Value>, entries: seq<Entry>,
    user': int, updates': map<Field, Value>, entries': seq<Entry>)
    requires PatchTyped(patch) && IsDiff(task, user, patch, updates, entries) && PatchTyped(updates)
    requires IsDiff(Apply(task, updates), user', patch, updates', entries')
    ensures updates' == map[] && entries' == []
  {
    PatchTakesEffect(task, user, patch, updates, entries);
    assert updates'.Keys == {};
    CountFields(entries');
  }

  // ---------------------------------------------------------------- every patch has an outcome

  const ALL_FIELDS: set<Field> := {Title, Description, Status, Priority, AssigneeId, DueDate}

  lemma IsField(f: Field)
    ensures f in ALL_FIELDS
  {
    assert f == Title || f == Description || f == Status || f == Priority || f == AssigneeId || f == DueDate;
  }

  lemma GoodPatch(members: set<int>, storeFails: bool, raw: map<string, Json>) returns (patch: map<Field, Value>)
    requires raw != map[] && forall k :: k in raw ==> ParseKey(members, storeFails, k, raw[k]).Ok?
    ensures ParseOutcome(members, storeFails, raw, Ok(patch))
  {
    patch := map f | f in ALL_FIELDS && NameOf(f) in raw :: ParseValue(members, storeFails, f, raw[NameOf(f)]).value;
    forall f ensures f in patch <==> NameOf(f) in raw { IsField(f); }
    forall f | f in patch ensures ParseValue(members, storeFails, f, raw[NameOf(f)]) == Ok(patch[f]) {
      assert ParseKey(members, storeFails, NameOf(f), raw[NameOf(f)]).Ok?;
    }
  }

  lemma SomeParse(members: set<int>, storeFails: bool, raw: map<string, Json>) returns (r: Result<map<Field, Value>>)
    ensures ParseOutcome(members, storeFails, raw, r)
    ensures r.Ok? <==> raw != map[] && forall k :: k in raw ==> ParseKey(members, storeFails, k, raw[k]).Ok?
  {
    if raw == map[] {
      r := Err(BadRequest);
    } else if k :| k in raw && ParseKey(members, storeFails, k, raw[k]).Err? {
      r := Err(ParseKey(members, storeFails, k, raw[k]).error);
    } else {
      var patch := GoodPatch(members, storeFails, raw);
      r := Ok(patch);
    }
  }

  lemma EntriesFor(task: Task, user: int, updates: map<Field, Value>, fields: set<Field>) returns (entries: seq<Entry>)
    requires fields <= updates.Keys
    ensures FieldsOf(entries) == fields && Distinct(entries)
    ensures forall i :: 0 <= i < |entries| ==>
      entries[i] == EntryFor(task, user, entries[i].field, updates[entries[i].field])
    decreases |fields|
  {
    entries := [];
    if fields != {} {
      var f :| f in fields;
      var rest := EntriesFor(task, user, updates, fields - {f});
      entries := rest + [EntryFor(task, user, f, updates[f])];
      assert entries[..|rest|] == rest;
    }
  }

  lemma SomeDiff(task: Task, user: int, patch: map<Field, Value>)
    returns (updates: map<Field, Value>, entries: seq<Entry>)
    ensures IsDiff(task, user, patch, updates, entries)
  {
    updates := map f | f in patch && Logged(patch[f]) != Logged(Column(task, f)) :: patch[f];
    entries := EntriesFor(task, user, updates, updates.Keys);
  }
}
