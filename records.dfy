/** The records of src/data.py as values: what each kind of record holds,
    how `load` copies a stored record's fields onto an in-memory one, the
    name setters, and the membership lists of a Section. The store that
    binds a record to a file is in store.dfy. */
module Records {
  import opened Common
  import Casing

  type Path = string

  /** Fixed locations and default settings (src/constants.py). The paths are
      `os.path.join` on a POSIX system. */
  const AppStatePath: Path := "data/appstate.pickle"
  const SettingsPath: Path := "data/settings.pickle"
  const DefaultExpand: bool := false
  const DefaultRestoreLast: bool := false
  const DefaultTitle: string := "School Database System"

  /** A picture and a birth date are stored and copied, never inspected. */
  datatype Picture = Picture(id: nat)
  datatype Date = Date(ordinal: int)

  /** The fields every Person, Student and Teacher has. Names are `None`
      until a string is assigned to them. */
  datatype PersonInfo = PersonInfo(
    pic: Picture,
    lname: Option<string>,
    fname: Option<string>,
    mname: Option<string>,
    bday: Date,
    address: string,
    sex: string,
    contactNo: Option<string>,
    email: Option<string>)

  /** The fields of a record, one variant per class deriving from DataLoader.
      A Teacher's `advisory_cls` is always `None` (its setter does nothing),
      so a Teacher holds only the Person fields. */
  datatype Body =
    | AppStateBody(currentPage: Option<string>, previousPage: Option<string>)
    | SettingsBody(expand: bool, restoreLast: bool, title: string)
    | SectionBody(name: string, adviser: Path, teachers: seq<Path>, students: seq<Path>)
    | PersonBody(person: PersonInfo)
    | StudentBody(person: PersonInfo, lrn: string, sy: (int, int))
    | TeacherBody(person: PersonInfo)
  {
    /** `isinstance(self, Person)`. */
    predicate IsPerson()
    {
      PersonBody? || StudentBody? || TeacherBody?
    }
  }

  /** What pickling a record captures: its path and all of its fields. */
  datatype Snapshot = Snapshot(path: Path, body: Body)

  /** Two bodies are of the same class. */
  predicate SameKind(a: Body, b: Body)
  {
    match a
    case AppStateBody(_, _) => b.AppStateBody?
    case SettingsBody(_, _, _) => b.SettingsBody?
    case SectionBody(_, _, _, _) => b.SectionBody?
    case PersonBody(_) => b.PersonBody?
    case StudentBody(_, _, _) => b.StudentBody?
    case TeacherBody(_) => b.TeacherBody?
  }

  // ---------------------------------------------------------------------
  // Person names

  /** A name as the setters leave it: absent, or already title-cased. */
  predicate NameNormal(n: Option<string>)
  {
    n.None? || Casing.IsTitled(n.value)
  }

  predicate PersonNormal(p: PersonInfo)
  {
    NameNormal(p.lname) && NameNormal(p.fname) && NameNormal(p.mname)
  }

  predicate BodyNormal(b: Body)
  {
    b.IsPerson() ==> PersonNormal(b.person)
  }

  /** The `lname`, `fname` and `mname` setters: a string is stored
      title-cased; anything without a `title()` method (`None`) is ignored
      and the field keeps its value. */
  function AssignName(current: Option<string>, value: Option<string>): (r: Option<string>)
    ensures value.Some? ==> r == Some(Casing.Title(value.value))
    ensures value.None? ==> r == current
    ensures NameNormal(current) ==> NameNormal(r)
  {
    match value
    case Some(s) =>
      Casing.TitleIdempotent(s);
      Some(Casing.Title(s))
    case None => current
  }

  /** Assigning the same value twice stores what assigning it once does. */
  lemma AssignNameIdempotent(current: Option<string>, value: Option<string>)
    ensures AssignName(AssignName(current, value), value) == AssignName(current, value)
  {
    if value.Some? {
      Casing.TitleIdempotent(value.value);
    }
  }

  /** The fields `Person.__init__` sets: the names through their setters
      (starting from `None`), `sex` lower-cased, the rest as given. */
  function NewPerson(pic: Picture, fname: Option<string>, bday: Date, address: string, sex: string,
                     contactNo: Option<string>, email: Option<string>, mname: Option<string>,
                     lname: Option<string>): (p: PersonInfo)
    ensures PersonNormal(p)
    ensures p.sex == Casing.Lower(sex)
    ensures forall i :: 0 <= i < |p.sex| ==> !Casing.IsUpper(p.sex[i])
    ensures p.fname == if fname.Some? then Some(Casing.Title(fname.value)) else None
    ensures p.mname == if mname.Some? then Some(Casing.Title(mname.value)) else None
    ensures p.lname == if lname.Some? then Some(Casing.Title(lname.value)) else None
    ensures p.pic == pic && p.bday == bday && p.address == address
    ensures p.contactNo == contactNo && p.email == email
  {
    PersonInfo(pic, AssignName(None, lname), AssignName(None, fname), AssignName(None, mname),
               bday, address, Casing.Lower(sex), contactNo, email)
  }

  // ---------------------------------------------------------------------
  // The field copy each `load` / `loads` performs after reading a record

  /** The result of copying fields onto a record: its new fields, and
      whether the copy finished or raised part-way. */
  datatype Copied = Copied(body: Body, outcome: Outcome)

  /** `Person.load`'s copy: each name through its setter, then birthday,
      address, sex, contact number and e-mail. The picture is not copied. */
  function CopyPerson(self: PersonInfo, d: PersonInfo): PersonInfo
  {
    self.(lname := AssignName(self.lname, d.lname),
          fname := AssignName(self.fname, d.fname),
          mname := AssignName(self.mname, d.mname),
          bday := d.bday, address := d.address, sex := d.sex,
          contactNo := d.contactNo, email := d.email)
  }

  /** The Person fields of `after` are those of `d`, except that each name
      `d` has is stored title-cased (through its setter), a name `d` lacks
      keeps the value it had in `before`, and the picture stays. */
  predicate PersonCopied(before: PersonInfo, d: PersonInfo, after: PersonInfo)
  {
    && after.pic == before.pic
    && after.bday == d.bday && after.address == d.address && after.sex == d.sex
    && after.contactNo == d.contactNo && after.email == d.email
    && (if d.lname.Some? then after.lname == Some(Casing.Title(d.lname.value)) else after.lname == before.lname)
    && (if d.fname.Some? then after.fname == Some(Casing.Title(d.fname.value)) else after.fname == before.fname)
    && (if d.mname.Some? then after.mname == Some(Casing.Title(d.mname.value)) else after.mname == before.mname)
  }

  /** `d` has every attribute the class of `self` reads in its `load`. */
  predicate Compatible(self: Body, d: Body)
  {
    match self
    case AppStateBody(_, _) => d.AppStateBody?
    case SettingsBody(_, _, _) => d.SettingsBody?
    case SectionBody(_, _, _, _) => d.SectionBody?
    case PersonBody(_) => d.IsPerson()
    case TeacherBody(_) => d.IsPerson()
    case StudentBody(_, _, _) => d.StudentBody?
  }

  /** The assignments `AppState.load`, `Settings.load`, `Section.load`,
      `Person.load` (also Teacher's) and `Student.load` make onto `self` from
      the record `d` just read. Reading an attribute `d` lacks raises
      AttributeError; the assignments made before it stay. Section copies
      the adviser path it holds (see `CopyFieldsAsWritten` for the code as
      written). */
  function CopyFields(self: Body, d: Body): (r: Copied)
    ensures SameKind(r.body, self)
    ensures r.outcome == Done <==> Compatible(self, d)
    ensures r.outcome.Raised? ==> r.outcome.error == AttributeError
    ensures r.outcome == Done && !self.IsPerson() ==> r.body == d
    ensures self.IsPerson() && d.IsPerson() ==> PersonCopied(self.person, d.person, r.body.person)
    ensures self.StudentBody? && d.StudentBody? ==> r.body.lrn == d.lrn && r.body.sy == d.sy
    ensures self.StudentBody? && d.IsPerson() && !d.StudentBody? ==> r.body.lrn == self.lrn && r.body.sy == self.sy
    ensures !self.IsPerson() && !Compatible(self, d) ==> r.body == self
    ensures self.IsPerson() && !d.IsPerson() ==> r.body == self
    ensures BodyNormal(self) ==> BodyNormal(r.body)
  {
    match self
    case AppStateBody(_, _) =>
      if d.AppStateBody? then Copied(AppStateBody(d.currentPage, d.previousPage), Done)
      else Copied(self, Raised(AttributeError))
    case SettingsBody(_, _, _) =>
      if d.SettingsBody? then Copied(SettingsBody(d.expand, d.restoreLast, d.title), Done)
      else Copied(self, Raised(AttributeError))
    case SectionBody(_, _, _, _) =>
      if d.SectionBody? then Copied(SectionBody(d.name, d.adviser, d.teachers, d.students), Done)
      else Copied(self, Raised(AttributeError))
    case PersonBody(p) =>
      if d.IsPerson() then Copied(PersonBody(CopyPerson(p, d.person)), Done)
      else Copied(self, Raised(AttributeError))
    case TeacherBody(p) =>
      if d.IsPerson() then Copied(TeacherBody(CopyPerson(p, d.person)), Done)
      else Copied(self, Raised(AttributeError))
    case StudentBody(p, lrn, sy) =>
      if !d.IsPerson() then Copied(self, Raised(AttributeError))
      else if d.StudentBody? then Copied(StudentBody(CopyPerson(p, d.person), d.lrn, d.sy), Done)
      else Copied(StudentBody(CopyPerson(p, d.person), lrn, sy), Raised(AttributeError))
  }

  /** Loading a record onto itself (what `load` does when the file is
      missing) changes nothing, since its names are already title-cased. */
  lemma CopyFromSelf(b: Body)
    requires BodyNormal(b)
    ensures CopyFields(b, b) == Copied(b, Done)
  {
  }

  /** Copying the same record twice leaves what copying it once left. */
  lemma CopyFieldsIdempotent(self: Body, d: Body)
    requires Compatible(self, d)
    ensures CopyFields(CopyFields(self, d).body, d) == CopyFields(self, d)
  {
    if self.IsPerson() {
      var p := self.person;
      var q := d.person;
      AssignNameIdempotent(p.lname, q.lname);
      AssignNameIdempotent(p.fname, q.fname);
      AssignNameIdempotent(p.mname, q.mname);
    }
  }

  // ---------------------------------------------------------------------
  // Settings

  /** `Settings.restore_defaults`: `restore_last` and `title` go back to
      their defaults; `expand` is kept. */
  function RestoreDefaults(b: Body): (r: Body)
    requires b.SettingsBody?
    ensures r.SettingsBody?
    ensures r.restoreLast == DefaultRestoreLast && r.title == DefaultTitle
    ensures r.expand == b.expand
  {
    b.(restoreLast := DefaultRestoreLast, title := DefaultTitle)
  }

  // ---------------------------------------------------------------------
  // Section membership

  predicate NoDup(xs: seq<Path>)
  {
    forall i, j :: 0 <= i < j < |xs| ==> xs[i] != xs[j]
  }

  /** The invariant a Section's lists are meant to keep: no path twice, and
      the adviser not among the teachers. */
  predicate SectionValid(b: Body)
    requires b.SectionBody?
  {
    NoDup(b.teachers) && NoDup(b.students) && b.adviser !in b.teachers
  }

  /** `if p not in xs: xs.append(p)`. */
  function AppendIfAbsent(xs: seq<Path>, p: Path): (r: seq<Path>)
    ensures p in r
    ensures forall q :: q in r <==> q in xs || q == p
    ensures p in xs ==> r == xs
    ensures p !in xs ==> |r| == |xs| + 1 && r[..|xs|] == xs && r[|xs|] == p
    ensures NoDup(xs) ==> NoDup(r)
  {
    if p in xs then xs else xs + [p]
  }

  /** The position of the first `p` in `xs`. */
  function FirstIndex(xs: seq<Path>, p: Path): (i: nat)
    requires p in xs
    ensures i < |xs| && xs[i] == p && p !in xs[..i]
  {
    if xs[0] == p then 0
    else
      assert p in xs[1..] by { assert xs == [xs[0]] + xs[1..]; }
      var j := FirstIndex(xs[1..], p);
      assert xs[..j + 1] == [xs[0]] + xs[1..][..j];
      j + 1
  }

  /** `xs.remove(p)`: deletes the first occurrence of `p`; ValueError when
      there is none. */
  function RemoveFirst(xs: seq<Path>, p: Path): (r: Result<seq<Path>>)
    ensures r.Err? <==> p !in xs
    ensures r.Err? ==> r.error == ValueError
    ensures r.Ok? ==> |r.value| == |xs| - 1 && multiset(r.value) == multiset(xs) - multiset{p}
    ensures r.Ok? ==> r.value == xs[..FirstIndex(xs, p)] + xs[FirstIndex(xs, p) + 1..]
  {
    if p !in xs then Err(ValueError)
    else
      var i := FirstIndex(xs, p);
      assert xs == xs[..i] + [p] + xs[i + 1..];
      Ok(xs[..i] + xs[i + 1..])
  }

  /** In a list without duplicates, removing `p` leaves no `p` and keeps
      the list free of duplicates. */
  lemma RemoveFirstNoDup(xs: seq<Path>, p: Path)
    requires NoDup(xs) && p in xs
    ensures RemoveFirst(xs, p).Ok?
    ensures p !in RemoveFirst(xs, p).value && NoDup(RemoveFirst(xs, p).value)
  {
    var i := FirstIndex(xs, p);
    var r := RemoveFirst(xs, p).value;
    assert r == xs[..i] + xs[i + 1..];
    forall a, b | 0 <= a < b < |r| ensures r[a] != r[b] {
      var a' := if a < i then a else a + 1;
      var b' := if b < i then b else b + 1;
      assert r[a] == xs[a'] && r[b] == xs[b'];
    }
    forall k | 0 <= k < |r| ensures r[k] != p {
      var k' := if k < i then k else k + 1;
      assert r[k] == xs[k'] && k' != i;
    }
  }

  /** Removing what was just appended restores the list. */
  lemma RemoveAppended(xs: seq<Path>, p: Path)
    requires p !in xs
    ensures RemoveFirst(xs + [p], p) == Ok(xs)
  {
    var ys := xs + [p];
    assert ys[|xs|] == p;
    var i := FirstIndex(ys, p);
    assert forall k :: 0 <= k < |xs| ==> ys[k] == xs[k];
    assert i == |xs|;
    assert ys[..i] == xs && ys[i + 1..] == [];
    assert ys[..i] + ys[i + 1..] == xs;
  }

  /** `Section.add`: a Teacher's path joins the teachers unless it is
      already there or is the adviser's; a Student's path joins the
      students unless it is already there; anything else raises TypeError.
      The adviser is the path the Section holds (see `AddMemberAsWritten`
      for the code as written). */
  function AddMember(section: Body, member: Snapshot): (r: Result<Body>)
    requires section.SectionBody?
    ensures r.Err? <==> !(member.body.TeacherBody? || member.body.StudentBody?)
    ensures r.Err? ==> r.error == TypeError
    ensures r.Ok? ==> r.value.SectionBody? && r.value.name == section.name && r.value.adviser == section.adviser
    ensures r.Ok? && member.body.StudentBody? ==>
      && r.value.teachers == section.teachers
      && member.path in r.value.students
      && (forall q :: q in r.value.students <==> q in section.students || q == member.path)
      && (member.path in section.students ==> r.value.students == section.students)
      && |r.value.students| >= |section.students|
      && r.value.students[..|section.students|] == section.students
      && (member.path !in section.students ==> r.value.students == section.students + [member.path])
    ensures r.Ok? && member.body.TeacherBody? ==>
      && r.value.students == section.students
      && (member.path == section.adviser || member.path in section.teachers ==> r.value.teachers == section.teachers)
      && (member.path != section.adviser ==> member.path in r.value.teachers)
      && (forall q :: q in r.value.teachers <==> q in section.teachers || (q == member.path && q != section.adviser))
      && |r.value.teachers| >= |section.teachers|
      && r.value.teachers[..|section.teachers|] == section.teachers
      && (member.path !in section.teachers && member.path != section.adviser ==>
            r.value.teachers == section.teachers + [member.path])
    ensures r.Ok? && SectionValid(section) ==> SectionValid(r.value)
  {
    var p := member.path;
    if member.body.TeacherBody? then
      if p !in section.teachers && p != section.adviser then
        Ok(section.(teachers := section.teachers + [p]))
      else Ok(section)
    else if member.body.StudentBody? then
      Ok(section.(students := AppendIfAbsent(section.students, p)))
    else Err(TypeError)
  }

  /** `Section.remove`: deletes the member's path from the teachers or
      students list, raising ValueError when it is not there and TypeError
      for anything but a Teacher or Student. */
  function RemoveMember(section: Body, member: Snapshot): (r: Result<Body>)
    requires section.SectionBody?
    ensures !(member.body.TeacherBody? || member.body.StudentBody?) ==> r == Err(TypeError)
    ensures member.body.TeacherBody? ==> (r.Err? <==> member.path !in section.teachers)
    ensures member.body.StudentBody? ==> (r.Err? <==> member.path !in section.students)
    ensures r.Err? && (member.body.TeacherBody? || member.body.StudentBody?) ==> r.error == ValueError
    ensures r.Ok? ==> r.value.SectionBody? && r.value.name == section.name && r.value.adviser == section.adviser
    ensures r.Ok? && member.body.TeacherBody? ==>
      r.value.students == section.students && RemoveFirst(section.teachers, member.path) == Ok(r.value.teachers)
    ensures r.Ok? && member.body.StudentBody? ==>
      r.value.teachers == section.teachers && RemoveFirst(section.students, member.path) == Ok(r.value.students)
  {
    if member.body.TeacherBody? then
      match RemoveFirst(section.teachers, member.path)
      case Ok(ts) => Ok(section.(teachers := ts))
      case Err(e) => Err(e)
    else if member.body.StudentBody? then
      match RemoveFirst(section.students, member.path)
      case Ok(ss) => Ok(section.(students := ss))
      case Err(e) => Err(e)
    else Err(TypeError)
  }

  /** Adding the same member twice is the same as adding it once. */
  lemma AddMemberIdempotent(section: Body, member: Snapshot)
    requires section.SectionBody?
    requires AddMember(section, member).Ok?
    ensures AddMember(AddMember(section, member).value, member) == AddMember(section, member)
  {
  }

  /** Removing a member keeps a valid Section valid, and the member is gone. */
  lemma RemoveMemberValid(section: Body, member: Snapshot)
    requires section.SectionBody? && SectionValid(section)
    requires RemoveMember(section, member).Ok?
    ensures SectionValid(RemoveMember(section, member).value)
    ensures member.body.TeacherBody? ==> member.path !in RemoveMember(section, member).value.teachers
    ensures member.body.StudentBody? ==> member.path !in RemoveMember(section, member).value.students
  {
    var r := RemoveMember(section, member).value;
    if member.body.TeacherBody? {
      RemoveFirstNoDup(section.teachers, member.path);
      assert multiset(r.teachers) == multiset(section.teachers) - multiset{member.path};
      assert multiset(section.teachers)[section.adviser] == 0;
      assert multiset(r.teachers)[section.adviser] == 0;
    } else {
      RemoveFirstNoDup(section.students, member.path);
    }
  }

  /** Removing a member just added to a Section that did not list it gives
      back the Section as it was. */
  lemma AddThenRemove(section: Body, member: Snapshot)
    requires section.SectionBody?
    requires member.body.StudentBody? ==> member.path !in section.students
    requires member.body.TeacherBody? ==> member.path !in section.teachers && member.path != section.adviser
    requires AddMember(section, member).Ok?
    ensures RemoveMember(AddMember(section, member).value, member) == Ok(section)
  {
    if member.body.TeacherBody? {
      RemoveAppended(section.teachers, member.path);
    } else {
      RemoveAppended(section.students, member.path);
    }
  }

  // ---------------------------------------------------------------------
  // The code as written (see README, Findings)

  /** Python's default recursion limit. */
  const RecursionLimit: nat := 1000

  /** The `fname` and `mname` getters as written: each returns its own
      property, so every read recurses until the recursion limit. */
  function NameGetterAsWritten(depth: nat): (r: Result<Option<string>>)
    ensures r == Err(RecursionError)
    decreases RecursionLimit - depth
  {
    if depth >= RecursionLimit then Err(RecursionError)
    else NameGetterAsWritten(depth + 1)
  }

  /** The getters as intended: the stored name, which is what the setter
      last stored. */
  lemma NameSetThenGet(p: PersonInfo, value: string)
    ensures p.(fname := AssignName(p.fname, Some(value))).fname == Some(Casing.Title(value))
    ensures p.(mname := AssignName(p.mname, Some(value))).mname == Some(Casing.Title(value))
    ensures Casing.IsTitled(Casing.Title(value))
  {
    Casing.TitleIdempotent(value);
  }

  /** `Section.add` as written: the Teacher branch reads `self.adviser`,
      which a Section does not have, whenever the path is not already among
      the teachers (`and` stops early when it is). */
  function AddMemberAsWritten(section: Body, member: Snapshot): (r: Result<Body>)
    requires section.SectionBody?
    ensures member.body.TeacherBody? ==> (r.Err? <==> member.path !in section.teachers)
    ensures member.body.TeacherBody? && r.Err? ==> r.error == AttributeError
    ensures member.body.TeacherBody? && r.Ok? ==> r.value == section
    ensures !member.body.TeacherBody? ==> r == AddMember(section, member)
  {
    if member.body.TeacherBody? then
      if member.path !in section.teachers then Err(AttributeError) else Ok(section)
    else AddMember(section, member)
  }

  /** `load` as written: `Section.load` copies `name`, then reads
      `d.adviser`, which no Section has; `Person.load` (and so Teacher's
      and Student's) copies `lname`, then reads `d.fname`, whose getter
      recurses without end. The other classes copy as intended. */
  function CopyFieldsAsWritten(self: Body, d: Body): (r: Copied)
    ensures self.SectionBody? ==> r.outcome == Raised(AttributeError) && r.body.SectionBody?
    ensures self.SectionBody? && d.SectionBody? ==> r.body == self.(name := d.name)
    ensures self.IsPerson() && d.IsPerson() ==>
      r.outcome == Raised(RecursionError) && r.body == self.(person := self.person.(lname := AssignName(self.person.lname, d.person.lname)))
    ensures self.IsPerson() && !d.IsPerson() ==> r == Copied(self, Raised(AttributeError))
    ensures self.AppStateBody? || self.SettingsBody? ==> r == CopyFields(self, d)
  {
    if self.SectionBody? then
      if d.SectionBody? then Copied(self.(name := d.name), Raised(AttributeError))
      else Copied(self, Raised(AttributeError))
    else if self.IsPerson() then
      if d.IsPerson() then
        var lnameCopied := self.(person := self.person.(lname := AssignName(self.person.lname, d.person.lname)));
        Copied(lnameCopied, Raised(NameGetterAsWritten(0).error))
      else Copied(self, Raised(AttributeError))
    else CopyFields(self, d)
  }

  /** As written, loading a Section or a Person never finishes, even from
      the record itself, whereas `CopyFields` always does. */
  lemma LoadAsWrittenAlwaysFails(b: Body)
    requires b.SectionBody? || b.IsPerson()
    requires BodyNormal(b)
    ensures CopyFieldsAsWritten(b, b).outcome.Raised?
    ensures CopyFields(b, b).outcome == Done
  {
  }
}
