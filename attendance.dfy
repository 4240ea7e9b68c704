/**
 * Bulk marking of attendance for a payroll period: every active employee is
 * marked Present on the Regular Day Shift for every day of the period on
 * which they have no attendance record yet. Days are day numbers; the
 * Attendance table is keyed by (employee, day).
 */
module Attendance {

  type EmployeeId = string

  /** A calendar date as a day number: consecutive dates differ by 1. */
  type Day = int

  type Key = (EmployeeId, Day)

  datatype EmployeeStatus = Active | Inactive | Suspended | Left

  datatype Employee = Employee(name: EmployeeId, employeeName: string, status: EmployeeStatus)

  datatype AttendanceStatus = Present | Absent | OnLeave | HalfDay | WorkFromHome

  datatype AttendanceRecord = AttendanceRecord(
    employee: EmployeeId,
    employeeName: string,
    attendanceDate: Day,
    status: AttendanceStatus,
    shift: string)

  datatype PayrollPeriod = PayrollPeriod(name: string, startDate: Day, endDate: Day)

  const RegularDayShift: string := "Regular Day Shift"

  /** The employees whose status is Active, in table order. */
  function ActiveEmployees(all: seq<Employee>): seq<Employee>
  {
    if all == [] then []
    else (if all[0].status == Active then [all[0]] else []) + ActiveEmployees(all[1..])
  }

  /** The Active filter keeps exactly the employees whose status is Active. */
  lemma {:induction false} ActiveEmployeesMembers(all: seq<Employee>)
    ensures forall e :: e in ActiveEmployees(all) <==> e in all && e.status == Active
  {
    if all != [] {
      ActiveEmployeesMembers(all[1..]);
      assert all == [all[0]] + all[1..];
    }
  }

  /** The ids of a list of employees. */
  function Names(emps: seq<Employee>): set<EmployeeId>
    decreases |emps|
  {
    if emps == [] then {} else Names(emps[..|emps| - 1]) + {emps[|emps| - 1].name}
  }

  /** An id is among the ids of the list exactly when some employee of the list has it. */
  lemma {:induction false} NamesMembers(emps: seq<Employee>)
    ensures forall j :: 0 <= j < |emps| ==> emps[j].name in Names(emps)
    ensures forall n :: n in Names(emps) ==> exists j :: 0 <= j < |emps| && emps[j].name == n
    decreases |emps|
  {
    if emps != [] {
      var init := emps[..|emps| - 1];
      NamesMembers(init);
      assert forall j :: 0 <= j < |init| ==> init[j] == emps[j];
    }
  }

  /** The pairs of every employee of `names` with day `d`. */
  function Row(names: set<EmployeeId>, d: Day): set<Key>
  {
    set n | n in names :: (n, d)
  }

  /** Every (employee, day) pair with the employee in `names` and the day in [first, last]. */
  function Grid(names: set<EmployeeId>, first: Day, last: Day): set<Key>
    decreases last - first
  {
    if last < first then {} else Grid(names, first, last - 1) + Row(names, last)
  }

  /** A pair is in the grid exactly when its employee is in `names` and its day in [first, last]. */
  lemma {:induction false} GridMembers(names: set<EmployeeId>, first: Day, last: Day)
    ensures forall k :: k in Grid(names, first, last) <==> k.0 in names && first <= k.1 <= last
    decreases last - first
  {
    if first <= last {
      GridMembers(names, first, last - 1);
      assert forall k :: k in Row(names, last) <==> k.0 in names && k.1 == last;
    }
  }

  /** The employee name of the first employee in the list with id `id`. */
  function FirstName(emps: seq<Employee>, id: EmployeeId): string
  {
    if emps == [] then ""
    else if emps[0].name == id then emps[0].employeeName
    else FirstName(emps[1..], id)
  }

  /** The name given for an id that occurs in the list belongs to an employee with that id. */
  lemma {:induction false} FirstNameFound(emps: seq<Employee>, id: EmployeeId)
    requires exists e :: e in emps && e.name == id
    ensures exists e :: e in emps && e.name == id && e.employeeName == FirstName(emps, id)
  {
    if emps[0].name != id {
      var e :| e in emps && e.name == id;
      assert e in emps[1..];
      FirstNameFound(emps[1..], id);
      var e' :| e' in emps[1..] && e'.name == id && e'.employeeName == FirstName(emps[1..], id);
      assert e' in emps;
    }
  }

  /** The record the bulk marker inserts for a missing (employee, day) pair. */
  function NewRecord(k: Key, emps: seq<Employee>): AttendanceRecord
  {
    AttendanceRecord(k.0, FirstName(emps, k.0), k.1, Present, RegularDayShift)
  }

  /** The table after a new record is inserted for every pair of `done` that had none. */
  function Inserted(existing: map<Key, AttendanceRecord>, done: set<Key>, emps: seq<Employee>): map<Key, AttendanceRecord>
  {
    map k | k in existing.Keys + done :: if k in existing then existing[k] else NewRecord(k, emps)
  }

  /** The pairs of active employee and day of the period. */
  function PeriodPairs(period: PayrollPeriod, all: seq<Employee>): set<Key>
  {
    Grid(Names(ActiveEmployees(all)), period.startDate, period.endDate)
  }

  /** The pairs of the period that have no attendance record yet. */
  function Missing(existing: map<Key, AttendanceRecord>, period: PayrollPeriod, all: seq<Employee>): set<Key>
  {
    PeriodPairs(period, all) - existing.Keys
  }

  /** The Attendance table after marking the period: a new record for every missing pair. */
  function Marked(existing: map<Key, AttendanceRecord>, period: PayrollPeriod, all: seq<Employee>): (r: map<Key, AttendanceRecord>)
    ensures r.Keys == existing.Keys + Missing(existing, period, all)
  {
    Inserted(existing, PeriodPairs(period, all), ActiveEmployees(all))
  }

  /** One step of the bulk marker: a Present record for `e` on `date`, unless one exists. */
  function MarkOne(records: map<Key, AttendanceRecord>, e: Employee, date: Day): map<Key, AttendanceRecord>
  {
    if (e.name, date) in records then records
    else records[(e.name, date) := AttendanceRecord(e.name, e.employeeName, date, Present, RegularDayShift)]
  }

  /** The bulk marker's steps for every employee of the list, in order, on one day. */
  function MarkEmployees(records: map<Key, AttendanceRecord>, emps: seq<Employee>, date: Day): map<Key, AttendanceRecord>
    decreases |emps|
  {
    if emps == [] then records
    else MarkOne(MarkEmployees(records, emps[..|emps| - 1], date), emps[|emps| - 1], date)
  }

  /** The bulk marker's steps for every day of [first, last], in order. */
  function MarkDays(records: map<Key, AttendanceRecord>, emps: seq<Employee>, first: Day, last: Day): map<Key, AttendanceRecord>
    decreases last - first
  {
    if last < first then records
    else MarkEmployees(MarkDays(records, emps, first, last - 1), emps, last)
  }

  /** The Attendance table, which the bulk marker inserts into. */
  class AttendanceTable {
    var records: map<Key, AttendanceRecord>

    constructor (initial: map<Key, AttendanceRecord>)
      ensures records == initial
    {
      records := initial;
    }

    /** Whether a record exists for this employee on this date. */
    predicate Exists(employee: EmployeeId, date: Day)
      reads this
    {
      (employee, date) in records
    }

    /** Stores a new record under its employee and date. */
    method Insert(att: AttendanceRecord)
      modifies this
      ensures records == old(records)[(att.employee, att.attendanceDate) := att]
    {
      records := records[(att.employee, att.attendanceDate) := att];
    }
  }

  /** The ids of the first `i` employees of the list, one more than of the first `i - 1`. */
  lemma NamesSnoc(emps: seq<Employee>, i: nat)
    requires i < |emps|
    ensures Names(emps[..i + 1]) == Names(emps[..i]) + {emps[i].name}
  {
    assert emps[..i + 1][..i] == emps[..i];
  }

  /** An employee whose id does not occur earlier in the list gives the name for that id. */
  lemma {:induction false} FirstNameAt(emps: seq<Employee>, i: nat)
    requires i < |emps|
    requires forall j :: 0 <= j < i ==> emps[j].name != emps[i].name
    ensures FirstName(emps, emps[i].name) == emps[i].employeeName
  {
    if i > 0 {
      assert emps[0].name != emps[i].name;
      FirstNameAt(emps[1..], i - 1);
    }
  }

  /** Adding one pair to `done` inserts its new record, unless the pair already has one. */
  lemma InsertedAdd(existing: map<Key, AttendanceRecord>, done: set<Key>, k: Key, emps: seq<Employee>)
    ensures k in existing.Keys + done ==> Inserted(existing, done + {k}, emps) == Inserted(existing, done, emps)
    ensures k !in existing.Keys + done ==> Inserted(existing, done + {k}, emps) == Inserted(existing, done, emps)[k := NewRecord(k, emps)]
  {
    assert existing.Keys + (done + {k}) == (existing.Keys + done) + {k};
  }

  /** The pairs handled so far: all days before `current`, and on `current` the first `i` employees. */
  function Done(emps: seq<Employee>, start: Day, current: Day, i: nat): set<Key>
    requires i <= |emps|
  {
    Grid(Names(emps), start, current - 1) + Row(Names(emps[..i]), current)
  }

  /** Stepping past employee `i` on day `current` adds exactly its pair. */
  lemma DoneStep(emps: seq<Employee>, start: Day, current: Day, i: nat)
    requires i < |emps|
    ensures Done(emps, start, current, i + 1) == Done(emps, start, current, i) + {(emps[i].name, current)}
  {
    NamesSnoc(emps, i);
  }

  /** Finishing day `current` is the same as starting day `current + 1`. */
  lemma DoneNextDay(emps: seq<Employee>, start: Day, current: Day)
    requires start <= current
    ensures Done(emps, start, current, |emps|) == Done(emps, start, current + 1, 0)
  {
    assert emps[..|emps|] == emps;
    assert emps[..0] == [];
  }

  /** Before the first day nothing is done. */
  lemma DoneAtStart(emps: seq<Employee>, start: Day)
    ensures Done(emps, start, start, 0) == {}
  {
    assert emps[..0] == [];
  }

  /** Once the day is past the end of the period, every pair of the period is done. */
  lemma DoneAtEnd(emps: seq<Employee>, start: Day, end: Day, current: Day)
    requires start <= current && end < current
    requires current <= end + 1 || current == start
    ensures Done(emps, start, current, 0) == Grid(Names(emps), start, end)
  {
    assert emps[..0] == [];
  }

  /** The marked table holds a record for every pair that had one and every pair done. */
  lemma InsertedKeys(existing: map<Key, AttendanceRecord>, done: set<Key>, emps: seq<Employee>)
    ensures Inserted(existing, done, emps).Keys == existing.Keys + done
  {
  }

  /** An employee whose pair for `date` is not done yet has an id not seen earlier in the list. */
  lemma FreshName(emps: seq<Employee>, start: Day, date: Day, i: nat)
    requires i < |emps|
    requires (emps[i].name, date) !in Done(emps, start, date, i)
    ensures FirstName(emps, emps[i].name) == emps[i].employeeName
  {
    var prefix := emps[..i];
    assert (emps[i].name, date) !in Row(Names(prefix), date);
    assert emps[i].name !in Names(prefix);
    NamesMembers(prefix);
    assert forall j :: 0 <= j < i ==> prefix[j] == emps[j];
    FirstNameAt(emps, i);
  }

  /** One turn of the inner loop: the table grows by the new record exactly when the pair had none. */
  lemma MarkStep(initial: map<Key, AttendanceRecord>, emps: seq<Employee>, start: Day, date: Day, i: nat)
    requires i < |emps|
    ensures var k := (emps[i].name, date);
      var records := Inserted(initial, Done(emps, start, date, i), emps);
      var next := Inserted(initial, Done(emps, start, date, i + 1), emps);
      && (k in records ==> next == records)
      && (k !in records ==>
            next == records[k := AttendanceRecord(emps[i].name, emps[i].employeeName, date, Present, RegularDayShift)])
  {
    var done := Done(emps, start, date, i);
    var k := (emps[i].name, date);
    DoneStep(emps, start, date, i);
    InsertedKeys(initial, done, emps);
    InsertedAdd(initial, done, k, emps);
    if k !in initial.Keys + done {
      FreshName(emps, start, date, i);
    }
  }

  /** The steps for the first `i` employees on day `date` insert the records of their pairs that had none. */
  lemma {:induction false} MarkEmployeesInserted(initial: map<Key, AttendanceRecord>, emps: seq<Employee>, start: Day, date: Day, i: nat)
    requires i <= |emps|
    ensures MarkEmployees(Inserted(initial, Done(emps, start, date, 0), emps), emps[..i], date)
      == Inserted(initial, Done(emps, start, date, i), emps)
  {
    var r0 := Inserted(initial, Done(emps, start, date, 0), emps);
    if i == 0 {
      assert emps[..0] == [];
    } else {
      MarkEmployeesInserted(initial, emps, start, date, i - 1);
      assert emps[..i][..i - 1] == emps[..i - 1];
      MarkStep(initial, emps, start, date, i - 1);
    }
  }

  /** The steps for the days [start, last] insert the records of their pairs that had none. */
  lemma {:induction false} MarkDaysInserted(initial: map<Key, AttendanceRecord>, emps: seq<Employee>, start: Day, last: Day)
    requires start <= last + 1
    ensures MarkDays(initial, emps, start, last) == Inserted(initial, Done(emps, start, last + 1, 0), emps)
    decreases last - start
  {
    if last < start {
      DoneAtStart(emps, start);
      assert Inserted(initial, {}, emps) == initial;
    } else {
      MarkDaysInserted(initial, emps, start, last - 1);
      MarkEmployeesInserted(initial, emps, start, last, |emps|);
      assert emps[..|emps|] == emps;
      DoneNextDay(emps, start, last);
    }
  }

  /** Running the steps over every day and active employee gives the marked table. */
  lemma MarkDaysIsMarked(existing: map<Key, AttendanceRecord>, period: PayrollPeriod, all: seq<Employee>)
    ensures MarkDays(existing, ActiveEmployees(all), period.startDate, period.endDate) == Marked(existing, period, all)
  {
    var emps := ActiveEmployees(all);
    if period.endDate < period.startDate {
      assert Inserted(existing, {}, emps) == existing;
    } else {
      MarkDaysInserted(existing, emps, period.startDate, period.endDate);
      DoneAtEnd(emps, period.startDate, period.endDate, period.endDate + 1);
    }
  }

  /** The marked table has one more record than the table it started from for each missing pair. */
  lemma MarkedCount(existing: map<Key, AttendanceRecord>, period: PayrollPeriod, all: seq<Employee>)
    ensures |Marked(existing, period, all)| == |existing| + |Missing(existing, period, all)|
  {
    var missing := Missing(existing, period, all);
    assert existing.Keys * missing == {};
    assert |Marked(existing, period, all).Keys| == |existing.Keys + missing|;
  }

  /** Records that existed before marking are kept unchanged. */
  lemma MarkedKeepsExisting(existing: map<Key, AttendanceRecord>, period: PayrollPeriod, all: seq<Employee>, k: Key)
    requires k in existing
    ensures k in Marked(existing, period, all) && Marked(existing, period, all)[k] == existing[k]
  {
  }

  /** Every active employee has a record for every day of the period after marking. */
  lemma MarkedCovers(existing: map<Key, AttendanceRecord>, period: PayrollPeriod, all: seq<Employee>, e: Employee, d: Day)
    requires e in all && e.status == Active
    requires period.startDate <= d <= period.endDate
    ensures (e.name, d) in Marked(existing, period, all)
  {
    var emps := ActiveEmployees(all);
    ActiveEmployeesMembers(all);
    var j :| 0 <= j < |emps| && emps[j] == e;
    NamesMembers(emps);
    GridMembers(Names(emps), period.startDate, period.endDate);
  }

  /**
   * A record that marking added is for an active employee on a day of the
   * period: Present, on the Regular Day Shift, under that employee's name.
   */
  lemma MarkedNewRecord(existing: map<Key, AttendanceRecord>, period: PayrollPeriod, all: seq<Employee>, k: Key)
    requires k in Marked(existing, period, all) && k !in existing
    ensures var r := Marked(existing, period, all)[k];
      && r.employee == k.0 && r.attendanceDate == k.1
      && r.status == Present && r.shift == RegularDayShift
      && period.startDate <= k.1 <= period.endDate
      && exists e :: e in all && e.status == Active && e.name == k.0 && e.employeeName == r.employeeName
  {
    var emps := ActiveEmployees(all);
    GridMembers(Names(emps), period.startDate, period.endDate);
    NamesMembers(emps);
    var j :| 0 <= j < |emps| && emps[j].name == k.0;
    assert emps[j] in emps;
    FirstNameFound(emps, k.0);
    var e :| e in emps && e.name == k.0 && e.employeeName == FirstName(emps, k.0);
    ActiveEmployeesMembers(all);
    assert e in all && e.status == Active;
  }

  /** With no active employee, the Active filter is empty. */
  lemma {:induction false} NoneActive(all: seq<Employee>)
    requires forall e :: e in all ==> e.status != Active
    ensures ActiveEmployees(all) == []
  {
    if all != [] {
      assert all[0] in all;
      assert forall e :: e in all[1..] ==> e in all;
      NoneActive(all[1..]);
    }
  }

  /** With an empty period or no active employee, marking changes nothing. */
  lemma NothingToMark(existing: map<Key, AttendanceRecord>, period: PayrollPeriod, all: seq<Employee>)
    requires period.endDate < period.startDate || forall e :: e in all ==> e.status != Active
    ensures Missing(existing, period, all) == {}
    ensures Marked(existing, period, all) == existing
  {
    if period.startDate <= period.endDate {
      NoneActive(all);
      GridMembers({}, period.startDate, period.endDate);
    }
    assert PeriodPairs(period, all) == {};
    assert Marked(existing, period, all) == existing;
  }

  /** Marking the same period a second time inserts nothing and leaves the table as it was. */
  lemma MarkedIdempotent(existing: map<Key, AttendanceRecord>, period: PayrollPeriod, all: seq<Employee>)
    ensures Missing(Marked(existing, period, all), period, all) == {}
    ensures Marked(Marked(existing, period, all), period, all) == Marked(existing, period, all)
  {
    var m := Marked(existing, period, all);
    assert Missing(m, period, all) == {};
    assert Marked(m, period, all) == m;
  }

  /**
   * mark_attendance_for_payroll_period: for each day of the period and each
   * active employee, inserts a Present record when none exists, and returns
   * how many records it inserted.
   */
  method MarkAttendanceForPayrollPeriod(table: AttendanceTable, period: PayrollPeriod, allEmployees: seq<Employee>)
    returns (recordsCreated: nat)
    modifies table
    ensures table.records == Marked(old(table.records), period, allEmployees)
    ensures recordsCreated == |Missing(old(table.records), period, allEmployees)|
  {
    var employees := ActiveEmployees(allEmployees);
    ghost var initial := table.records;
    recordsCreated := 0;
    var currentDate := period.startDate;
    while currentDate <= period.endDate
      invariant period.startDate <= currentDate
      invariant currentDate <= period.endDate + 1 || currentDate == period.startDate
      invariant table.records == MarkDays(initial, employees, period.startDate, currentDate - 1)
      invariant |table.records| == |initial| + recordsCreated
      decreases period.endDate - currentDate
    {
      ghost var dayStart := table.records;
      var i := 0;
      while i < |employees|
        invariant 0 <= i <= |employees|
        invariant table.records == MarkEmployees(dayStart, employees[..i], currentDate)
        invariant |table.records| == |initial| + recordsCreated
      {
        var emp := employees[i];
        assert employees[..i + 1][..i] == employees[..i];
        if !table.Exists(emp.name, currentDate) {
          var att := AttendanceRecord(emp.name, emp.employeeName, currentDate, Present, RegularDayShift);
          table.Insert(att);
          recordsCreated := recordsCreated + 1;
        }
        i := i + 1;
      }
      assert employees[..|employees|] == employees;
      currentDate := currentDate + 1;
    }
    MarkDaysIsMarked(initial, period, allEmployees);
    MarkedCount(initial, period, allEmployees);
  }
}
