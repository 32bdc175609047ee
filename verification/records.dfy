/** An API record (entity/src/record.rs) after decoding, the student row
    (entity/src/student.rs) derived from it, and
    `create_student_activemodel`, which keeps a record's student data only
    when every mandatory field is present. */
module Records {

  import opened Basics
  import opened RecordDates
  import Grades
  import DegreeCodec
  import LevelCodec
  import SexCodec

  /** An Ethereum wallet address, the users table's primary key. */
  type Wallet = string

  datatype Record = Record(
    id: string,
    wallet: Wallet,
    grade: Option<Grades.Grade>,
    course: Option<string>,
    level: Option<LevelCodec.Level>,
    sex: Option<SexCodec.Sex>,
    joinDate: Option<Date>,
    joinMonth: Option<string>,
    office: Option<string>,
    email: Option<string>,
    emailOf4nonome: Option<string>,
    university: Option<string>,
    major: Option<string>,
    leaveDate: Option<Date>,
    active: Option<bool>,
    slackId: Option<string>,
    discordId: Option<string>,
    total: U32,
    totalPgrit: U32,
    totalDawn: U32,
    totalOther: U32,
    daily: map<Date, U32>)

  /** A row of the students table; every column but the leave date and
      the Discord id is mandatory. */
  datatype Student = Student(
    userId: Wallet,
    degreeStep: DegreeCodec.Degree,
    grade: U16,
    course: string,
    level: LevelCodec.Level,
    sex: SexCodec.Sex,
    joinDate: Date,
    office: string,
    email: string,
    emailOf4nonome: string,
    university: string,
    major: string,
    leaveDate: Option<Date>,
    active: bool,
    slackId: string,
    discordId: Option<string>)

  /** The twelve optional record fields a student row cannot do without. */
  predicate HasStudentFields(r: Record) {
    && r.grade.Some? && r.course.Some? && r.level.Some? && r.sex.Some?
    && r.joinDate.Some? && r.office.Some? && r.email.Some? && r.emailOf4nonome.Some?
    && r.university.Some? && r.major.Some? && r.active.Some? && r.slackId.Some?
  }

  /** `create_student_activemodel`: `None` as soon as one mandatory field
      is missing; the optional leave date and Discord id are copied as they
      are. */
  function CreateStudent(r: Record): (s: Option<Student>)
    ensures s.Some? <==> HasStudentFields(r)
    ensures s.Some? ==> s.value.userId == r.wallet && s.value.leaveDate == r.leaveDate
                        && s.value.discordId == r.discordId
  {
    if !HasStudentFields(r) then None
    else
      var g := r.grade.value;
      Some(Student(r.wallet, g.degreeStep, g.nth, r.course.value, r.level.value, r.sex.value,
                   r.joinDate.value, r.office.value, r.email.value, r.emailOf4nonome.value,
                   r.university.value, r.major.value, r.leaveDate, r.active.value,
                   r.slackId.value, r.discordId))
  }

  /** The record fields a student row was read from, written back into
      `r`: the inverse direction of `CreateStudent`. */
  function WithStudent(r: Record, s: Student): (q: Record)
    ensures HasStudentFields(q)
  {
    r.(wallet := s.userId,
       grade := Some(Grades.Grade(s.degreeStep, s.grade)),
       course := Some(s.course), level := Some(s.level), sex := Some(s.sex),
       joinDate := Some(s.joinDate), office := Some(s.office), email := Some(s.email),
       emailOf4nonome := Some(s.emailOf4nonome), university := Some(s.university),
       major := Some(s.major), leaveDate := s.leaveDate, active := Some(s.active),
       slackId := Some(s.slackId), discordId := s.discordId)
  }

  /** Every student row is produced from the record that carries its
      fields, whatever the record's other fields hold; and a record with
      all fields present yields a row from which it can be rebuilt. */
  lemma CreateStudentRoundTrip(r: Record, s: Student)
    ensures CreateStudent(WithStudent(r, s)) == Some(s)
    ensures HasStudentFields(r) ==> WithStudent(r, CreateStudent(r).value) == r
  {
  }

  /** The set of wallets a batch of records mentions. */
  function Wallets(records: seq<Record>): (ws: set<Wallet>)
    ensures forall i :: 0 <= i < |records| ==> records[i].wallet in ws
    ensures forall w :: w in ws ==> exists i :: 0 <= i < |records| && records[i].wallet == w
  {
    set i | 0 <= i < |records| :: records[i].wallet
  }
}
