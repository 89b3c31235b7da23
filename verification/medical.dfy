/** The medical service: its records, the appointment-slot validator
    (nestedLoop and checkSchedule) and the check-then-create step of
    PostVisit over an abstract store of created visit records. */
module Medical {

  import opened Wrappers
  import opened Clock

  datatype Patient = Patient(id: int, name: string, sex: string, age: int)

  /** Patient{}: every field at its Go zero value. */
  const ZeroPatient := Patient(0, "", "", 0)

  datatype Visit = Visit(id: int, patientID: int, patient: Patient, schedule: Time)

  /** Visit{}: zero IDs, the zero patient and the zero time. */
  const ZeroVisit := Visit(0, 0, ZeroPatient, Zero)

  /** The sentinel errors of the package (ErrNotFound, ErrAlreadyExists,
      ErrInconsistentIDs, and ErrBadRouting of the transport layer), plus any
      other error, such as one the database returns. Go compares sentinels by
      identity, so Other("not found") is not NotFound. */
  datatype Error = NotFound | AlreadyExists | InconsistentIDs | BadRouting | Other(msg: string) {

    /** The text err.Error() returns. */
    function Text(): string {
      match this
      case NotFound => "not found"
      case AlreadyExists => "already exists"
      case InconsistentIDs => "inconsistent IDs"
      case BadRouting => "route and handle error"
      case Other(m) => m
    }
  }

  /** The list [0, 1, ..., n-1] that checkSchedule builds with make and a fill loop. */
  function Range(n: nat): (r: seq<int>)
    ensures |r| == n
    ensures forall i :: 0 <= i < n ==> r[i] == i
  {
    if n == 0 then [] else Range(n - 1) + [n - 1]
  }

  /** Range(n) holds exactly the integers 0 to n-1. */
  lemma RangeHoldsExactly(n: nat)
    ensures forall x :: x in Range(n) <==> 0 <= x < n
  {
    var r := Range(n);
    forall x | 0 <= x < n
      ensures x in r
    {
      assert r[x] == x;
    }
  }

  /** The minute list every weekday uses. */
  function Minutes(): (r: seq<int>)
    ensures forall x :: x in r <==> 0 <= x < 60
  {
    RangeHoldsExactly(60);
    Range(60)
  }

  /** The hour list of each case of checkSchedule's switch on the weekday. */
  function HourTable(d: Day): (r: seq<int>)
    ensures forall h :: h in r <==> OpenSlot(d, h)
  {
    if d == Monday then [8, 9, 10, 14, 15, 20, 21]
    else if d == Tuesday then [10, 11, 15, 16, 17]
    else if d == Wednesday then [13, 14, 15, 16, 17]
    else if d == Thursday then [8, 9, 10, 14, 15, 16, 17]
    else if d == Friday then [14, 15, 16, 17]
    else if d == Saturday then [8, 9, 10]
    else assert d == Sunday; [20, 21, 22]
  }

  /** The opening hours, written as windows of consecutive hours: the
      reference the hour tables are checked against. */
  predicate OpenSlot(d: Day, h: int) {
    if d == Monday then 8 <= h <= 10 || 14 <= h <= 15 || 20 <= h <= 21
    else if d == Tuesday then 10 <= h <= 11 || 15 <= h <= 17
    else if d == Wednesday then 13 <= h <= 17
    else if d == Thursday then 8 <= h <= 10 || 14 <= h <= 17
    else if d == Friday then 14 <= h <= 17
    else if d == Saturday then 8 <= h <= 10
    else 20 <= h <= 22
  }

  /** The inner loop of nestedLoop for one hour a: whether some minute b of m
      has the schedule's hour equal to a and its minute equal to b. */
  function ScanMinutes(a: int, m: seq<int>, v: Visit): (found: bool)
    ensures found <==> v.schedule.Hour() == a && v.schedule.Minute() in m
  {
    if |m| == 0 then false
    else if v.schedule.Hour() == a && v.schedule.Minute() == m[0] then true
    else ScanMinutes(a, m[1..], v)
  }

  /** nestedLoop(h, m, v): v on the first matching (hour, minute) pair, the
      zero Visit when the lists run out without a match. */
  function NestedLoop(h: seq<int>, m: seq<int>, v: Visit): (r: Visit)
    ensures r == (if v.schedule.Hour() in h && v.schedule.Minute() in m then v else ZeroVisit)
  {
    if |h| == 0 then ZeroVisit
    else if ScanMinutes(h[0], m, v) then v
    else NestedLoop(h[1..], m, v)
  }

  /** The (Visit, error) pair checkSchedule returns. */
  datatype Checked = Checked(visit: Visit, err: Option<Error>)

  /** checkSchedule: NotFound for an unset schedule; otherwise no error, and
      the visit itself when its hour is open on its weekday, else Visit{}. */
  function CheckSchedule(v: Visit): (r: Checked)
    ensures r.err.Some? <==> v.schedule.IsZero()
    ensures r.err.Some? ==> r == Checked(ZeroVisit, Some(NotFound))
    ensures r.err.None? ==>
      r.visit == (if OpenSlot(v.schedule.Weekday(), v.schedule.Hour()) then v else ZeroVisit)
  {
    if v.schedule.IsZero() then Checked(ZeroVisit, Some(NotFound))
    else
      Checked(NestedLoop(HourTable(v.schedule.Weekday()), Minutes(), v), None)
  }

  /** Whether checkSchedule lets the visit through unchanged. */
  predicate Accepted(v: Visit) {
    CheckSchedule(v) == Checked(v, None)
  }

  /** The error PostVisit returns and the store of created records after it. */
  datatype Posted = Posted(err: Option<Error>, store: seq<Visit>)

  /** PostVisit over the sequence of records handed to a successful Create
      so far, as PostVisit built them. `createErr` is
      the outcome of the database's Create call, which is not modelled: None
      when the record was written, Some(e) when Create failed with e. */
  function PostVisit(store: seq<Visit>, v: Visit, createErr: Option<Error>): (r: Posted)
    ensures v.schedule.IsZero() ==> r == Posted(Some(NotFound), store)
    ensures !v.schedule.IsZero() && createErr.Some? ==> r == Posted(createErr, store)
    ensures !v.schedule.IsZero() && createErr.None? ==>
      && r.err == None
      && |r.store| == |store| + 1
      && r.store[..|store|] == store
      && r.store[|store|].id == 0
      && r.store[|store|].patientID == 0
      && (OpenSlot(v.schedule.Weekday(), v.schedule.Hour()) ==>
            r.store[|store|].patient == v.patient && r.store[|store|].schedule == v.schedule)
      && (!OpenSlot(v.schedule.Weekday(), v.schedule.Hour()) ==> r.store[|store|] == ZeroVisit)
  {
    var c := CheckSchedule(v);
    if c.err.Some? then Posted(c.err, store)
    else
      // Only Patient and Schedule are copied: ID and PatientID stay 0.
      var visitDetail := Visit(0, 0, c.visit.patient, c.visit.schedule);
      if createErr.Some? then Posted(createErr, store)
      else Posted(None, store + [visitDetail])
  }

  // ---------------------------------------------------------------- lemmas

  /** The result of nestedLoop depends only on which hours and minutes the
      lists hold, not on their order or repetitions. */
  lemma NestedLoopOrderIndependent(h: seq<int>, h': seq<int>, m: seq<int>, m': seq<int>, v: Visit)
    requires forall a :: a in h <==> a in h'
    requires forall b :: b in m <==> b in m'
    ensures NestedLoop(h, m, v) == NestedLoop(h', m', v)
  {
  }

  /** checkSchedule never edits a visit: its result is the input or Visit{}. */
  lemma CheckScheduleKeepsOrZeroes(v: Visit)
    ensures CheckSchedule(v).visit == v || CheckSchedule(v).visit == ZeroVisit
  {
  }

  /** The minute never decides acceptance: two set schedules on the same
      weekday and hour are both accepted or both turned into Visit{}. */
  lemma MinuteNeverMatters(v1: Visit, v2: Visit)
    requires !v1.schedule.IsZero() && !v2.schedule.IsZero()
    requires v1.schedule.Weekday() == v2.schedule.Weekday()
    requires v1.schedule.Hour() == v2.schedule.Hour()
    ensures Accepted(v1) <==> Accepted(v2)
  {
  }

  /** Accepted visits are fixed points of checkSchedule, and the zero Visit
      it produces for an unmatched slot is rejected with NotFound if checked
      again. */
  lemma CheckScheduleRecheck(v: Visit)
    requires CheckSchedule(v).err.None?
    ensures Accepted(v) ==> CheckSchedule(CheckSchedule(v).visit) == Checked(v, None)
    ensures !Accepted(v) ==> CheckSchedule(CheckSchedule(v).visit) == Checked(ZeroVisit, Some(NotFound))
  {
  }

  /** An out-of-table slot is not refused: PostVisit reports success and
      stores an all-zero record. */
  lemma UnmatchedSlotStoresZeroRecord(store: seq<Visit>, v: Visit)
    requires !v.schedule.IsZero()
    requires !OpenSlot(v.schedule.Weekday(), v.schedule.Hour())
    ensures PostVisit(store, v, None) == Posted(None, store + [ZeroVisit])
  {
  }

  /** An open slot is stored with its patient and schedule and without IDs. */
  lemma OpenSlotStoresDetail(store: seq<Visit>, v: Visit)
    requires !v.schedule.IsZero()
    requires OpenSlot(v.schedule.Weekday(), v.schedule.Hour())
    ensures PostVisit(store, v, None) == Posted(None, store + [Visit(0, 0, v.patient, v.schedule)])
  {
  }

  // ------------------------------------------ PostVisit calls one after another

  /** The write lock serialises PostVisit calls; this is the store after
      posting the visits of vs in order, every Create succeeding. */
  function PostAll(store: seq<Visit>, vs: seq<Visit>): (r: seq<Visit>)
  {
    if |vs| == 0 then store
    else PostVisit(PostAll(store, vs[..|vs| - 1]), vs[|vs| - 1], None).store
  }

  /** How many visits of vs carry a set schedule. */
  function CountSet(vs: seq<Visit>): (n: nat)
  {
    if |vs| == 0 then 0
    else CountSet(vs[..|vs| - 1]) + (if vs[|vs| - 1].schedule.IsZero() then 0 else 1)
  }

  /** A record without ID and PatientID, as every record PostVisit hands to
      Create is; the database may assign both when it saves the record. */
  predicate Unkeyed(r: Visit) {
    r.id == 0 && r.patientID == 0
  }

  /** Serialised posts keep every earlier record, hand exactly one record to
      Create per visit with a set schedule (matched or not), and every record
      handed to Create has zero IDs. */
  lemma {:induction false} PostAllCounts(store: seq<Visit>, vs: seq<Visit>)
    ensures |PostAll(store, vs)| == |store| + CountSet(vs)
    ensures PostAll(store, vs)[..|store|] == store
    ensures forall i :: |store| <= i < |PostAll(store, vs)| ==> Unkeyed(PostAll(store, vs)[i])
  {
    if |vs| > 0 {
      var prefix := vs[..|vs| - 1];
      PostAllCounts(store, prefix);
      var before := PostAll(store, prefix);
      var after := PostAll(store, vs);
      assert after == PostVisit(before, vs[|vs| - 1], None).store;
      assert after[..|before|] == before;
      assert after[..|store|] == before[..|store|];
    }
  }
}
