/** The record store of src/data.py: `DataLoader` binds one in-memory record
    to one file. The disk is a map from paths to the snapshot pickled at
    each; pickling is an exact snapshot of the record. */
module Store {
  import opened Common
  import opened Records

  type Files = map<Path, Snapshot>

  /** Every file holds the record whose path it is, as `dump` writes them. */
  predicate WellFormed(files: Files)
  {
    forall p :: p in files ==> files[p].path == p
  }

  /** The disk after a path change, and the record's path. */
  datatype Moved = Moved(files: Files, path: Path, outcome: Outcome)

  /** The `path` setter of DataLoader, on the disk and the record `s`: the
      same path changes nothing; otherwise the old file is removed
      (FileNotFoundError when there is none, before anything changes), the
      path is set and the record dumped there. */
  function MoveFiles(files: Files, s: Snapshot, value: Path): (r: Moved)
    ensures value == s.path ==> r == Moved(files, s.path, Done)
    ensures value != s.path && s.path !in files ==> r == Moved(files, s.path, Raised(FileNotFoundError))
    ensures value != s.path && s.path in files ==>
      && r.outcome == Done && r.path == value
      && s.path !in r.files
      && value in r.files && r.files[value] == Snapshot(value, s.body)
      && (forall q :: q != s.path && q != value ==> (q in r.files <==> q in files))
      && (forall q :: q != s.path && q != value && q in files ==> r.files[q] == files[q])
    ensures WellFormed(files) ==> WellFormed(r.files)
  {
    if value == s.path then Moved(files, s.path, Done)
    else if s.path !in files then Moved(files, s.path, Raised(FileNotFoundError))
    else Moved((files - {s.path})[value := Snapshot(value, s.body)], value, Done)
  }

  /** The `Section.path` setter as written: it removes the old file, then
      `super().path = value` raises AttributeError (a `super()` object takes
      no attribute assignment), so the path is unchanged and no file is
      written. The Section is left with no file at all. */
  function SectionMoveAsWritten(files: Files, s: Snapshot, value: Path): (r: Moved)
    ensures value == s.path || s.path !in files ==> r == MoveFiles(files, s, value)
    ensures value != s.path && s.path in files ==>
      && r.outcome == Raised(AttributeError) && r.path == s.path
      && s.path !in r.files
      && (value !in files ==> value !in r.files)
      && MoveFiles(files, s, value).outcome == Done
      && MoveFiles(files, s, value).files[value] == Snapshot(value, s.body)
  {
    if value == s.path || s.path !in files then MoveFiles(files, s, value)
    else Moved(files - {s.path}, s.path, Raised(AttributeError))
  }

  /** The disk, the record's fields and the value returned after `load`. */
  datatype Loaded = Loaded(files: Files, body: Body, result: Result<Snapshot>)

  /** The record `load` reads: the file at the record's path, or the record
      itself when there is no file (it is dumped first). */
  function Read(files: Files, s: Snapshot): Snapshot
  {
    if s.path in files then files[s.path] else s
  }

  /** `load` of any record class: DataLoader.load opens the file at the
      path; when that fails it dumps the record and uses the record itself.
      The class's own `load` then copies fields from what was read and
      returns it. */
  function LoadFrom(files: Files, s: Snapshot): (r: Loaded)
    ensures s.path in files ==> r.files == files
    ensures s.path !in files ==> r.files == files[s.path := s]
    ensures r.result.Ok? ==> r.result.value == Read(files, s) && r.result.value == r.files[s.path]
    ensures r.result.Err? ==> r.result.error == AttributeError
    ensures r.body == CopyFields(s.body, Read(files, s).body).body
    ensures s.path !in files && BodyNormal(s.body) ==> r.body == s.body && r.result == Ok(s)
    ensures r.result.Ok? <==> Compatible(s.body, Read(files, s).body)
    ensures SameKind(r.body, s.body)
    ensures WellFormed(files) ==> WellFormed(r.files)
    ensures BodyNormal(s.body) ==> BodyNormal(r.body)
  {
    var d := Read(files, s);
    var written := if s.path in files then files else files[s.path := s];
    var c := CopyFields(s.body, d.body);
    Loaded(written, c.body, if c.outcome == Done then Ok(d) else Err(c.outcome.error))
  }

  /** Loading twice is loading once: the second read finds the file the
      first left and copies the same fields again. */
  lemma LoadIdempotent(files: Files, s: Snapshot)
    requires LoadFrom(files, s).result.Ok?
    ensures var first := LoadFrom(files, s);
      LoadFrom(first.files, Snapshot(s.path, first.body)) == first
  {
    var first := LoadFrom(files, s);
    var d := Read(files, s);
    CopyFieldsIdempotent(s.body, d.body);
    assert Read(first.files, Snapshot(s.path, first.body)) == d;
  }

  /** The disk: what is stored at each path. */
  class FileSystem {
    var files: Files

    constructor (files: Files)
      ensures this.files == files
    {
      this.files := files;
    }
  }

  /** A record bound to the file at its path (DataLoader and the classes
      deriving from it; `body` says which). */
  class DataLoader {
    var path: Path
    var body: Body

    /** What pickling this record captures. */
    function State(): Snapshot
      reads this
    {
      Snapshot(path, body)
    }

    /** `AppState()`: no current and no previous page. */
    constructor AppState()
      ensures State() == Snapshot(AppStatePath, AppStateBody(None, None))
    {
      path := AppStatePath;
      body := AppStateBody(None, None);
    }

    /** `Settings()`: the default settings. */
    constructor Settings()
      ensures State() == Snapshot(SettingsPath, SettingsBody(DefaultExpand, DefaultRestoreLast, DefaultTitle))
    {
      path := SettingsPath;
      body := SettingsBody(DefaultExpand, DefaultRestoreLast, DefaultTitle);
    }

    /** `Section(path, name, adviser)`: no teachers and no students yet. */
    constructor Section(path: Path, name: string, adviser: Path)
      ensures State() == Snapshot(path, SectionBody(name, adviser, [], []))
      ensures SectionValid(body)
    {
      this.path := path;
      body := SectionBody(name, adviser, [], []);
    }

    /** `Person(...)`. */
    constructor Person(path: Path, pic: Picture, fname: Option<string>, bday: Date, address: string,
                       sex: string, contactNo: Option<string>, email: Option<string>,
                       mname: Option<string>, lname: Option<string>)
      ensures State() == Snapshot(path, PersonBody(NewPerson(pic, fname, bday, address, sex, contactNo, email, mname, lname)))
      ensures BodyNormal(body)
    {
      this.path := path;
      body := PersonBody(NewPerson(pic, fname, bday, address, sex, contactNo, email, mname, lname));
    }

    /** `Student(...)`: the Person fields, the learner reference number and
      the school year. */
    constructor Student(path: Path, pic: Picture, fname: Option<string>, bday: Date, address: string,
                        sex: string, lrn: string, sy: (int, int), contactNo: Option<string>,
                        email: Option<string>, mname: Option<string>, lname: Option<string>)
      ensures State() == Snapshot(path, StudentBody(NewPerson(pic, fname, bday, address, sex, contactNo, email, mname, lname), lrn, sy))
      ensures BodyNormal(body)
    {
      this.path := path;
      body := StudentBody(NewPerson(pic, fname, bday, address, sex, contactNo, email, mname, lname), lrn, sy);
    }

    /** `Teacher(...)`: the Person fields; the advisory class given is dropped. */
    constructor Teacher(path: Path, pic: Picture, fname: Option<string>, bday: Date, address: string,
                        sex: string, contactNo: Option<string>, email: Option<string>,
                        mname: Option<string>, lname: Option<string>)
      ensures State() == Snapshot(path, TeacherBody(NewPerson(pic, fname, bday, address, sex, contactNo, email, mname, lname)))
      ensures BodyNormal(body)
    {
      this.path := path;
      body := TeacherBody(NewPerson(pic, fname, bday, address, sex, contactNo, email, mname, lname));
    }

    /** Unpickling: a fresh record holding exactly the snapshot. */
    constructor FromSnapshot(s: Snapshot)
      ensures State() == s
    {
      path := s.path;
      body := s.body;
    }

    /** `dump`: overwrite the file at the record's path with its snapshot. */
    method Dump(fs: FileSystem)
      modifies fs
      ensures fs.files == old(fs.files)[path := State()]
    {
      fs.files := fs.files[path := State()];
    }

    /** `dumps`: the record's snapshot. */
    method Dumps() returns (s: Snapshot)
      ensures s == State()
    {
      s := Snapshot(path, body);
    }

    /** `DataLoader.construct(path)`: the record stored at `p`. */
    static method Construct(fs: FileSystem, p: Path) returns (r: Result<DataLoader>)
      ensures p !in fs.files <==> r.Err?
      ensures r.Err? ==> r.error == FileNotFoundError
      ensures r.Ok? ==> fresh(r.value) && r.value.State() == fs.files[p]
    {
      if p !in fs.files {
        return Err(FileNotFoundError);
      }
      var d := new DataLoader.FromSnapshot(fs.files[p]);
      r := Ok(d);
    }

    /** `DataLoader.constructs(s)`: the record the bytes hold. */
    static method Constructs(s: Snapshot) returns (d: DataLoader)
      ensures fresh(d) && d.State() == s
    {
      d := new DataLoader.FromSnapshot(s);
    }

    /** The `path` setter. */
    method SetPath(fs: FileSystem, value: Path) returns (r: Outcome)
      modifies this, fs
      ensures var m := MoveFiles(old(fs.files), old(State()), value);
        fs.files == m.files && path == m.path && r == m.outcome
      ensures body == old(body)
    {
      if path != value {
        if path !in fs.files {
          return Raised(FileNotFoundError);
        }
        fs.files := fs.files - {path};
        path := value;
        Dump(fs);
      }
      r := Done;
    }

    /** `load`: read the file at the path (dumping the record first when
      there is none), copy the class's fields from it and return it. */
    method Load(fs: FileSystem) returns (r: Result<Snapshot>)
      modifies this, fs
      ensures var l := LoadFrom(old(fs.files), old(State()));
        fs.files == l.files && body == l.body && r == l.result
      ensures path == old(path)
    {
      var d: Snapshot;
      if path in fs.files {
        d := fs.files[path];
      } else {
        Dump(fs);
        d := State();
      }
      var c := CopyFields(body, d.body);
      if !(old(path) in old(fs.files)) && BodyNormal(old(body)) {
        CopyFromSelf(old(body));
      }
      body := c.body;
      r := if c.outcome == Done then Ok(d) else Err(c.outcome.error);
    }

    /** `loads(s)`: copy the class's fields from the record the bytes hold
      and return it. */
    method Loads(s: Snapshot) returns (r: Result<Snapshot>)
      modifies this
      ensures body == CopyFields(old(body), s.body).body
      ensures r.Ok? <==> CopyFields(old(body), s.body).outcome == Done
      ensures r.Ok? ==> r.value == s
      ensures r.Err? ==> r.error == AttributeError
      ensures path == old(path)
    {
      var c := CopyFields(body, s.body);
      body := c.body;
      r := if c.outcome == Done then Ok(s) else Err(c.outcome.error);
    }

    /** `Settings.restore_defaults`. */
    method RestoreDefaults()
      requires body.SettingsBody?
      modifies this
      ensures body == Records.RestoreDefaults(old(body)) && path == old(path)
    {
      body := Records.RestoreDefaults(body);
    }

    /** `Section.add`. */
    method Add(value: DataLoader) returns (r: Outcome)
      requires body.SectionBody?
      modifies this
      ensures var a := AddMember(old(body), old(value.State()));
        (a.Ok? ==> r == Done && body == a.value) && (a.Err? ==> r == Raised(a.error) && body == old(body))
      ensures path == old(path)
    {
      var a := AddMember(body, value.State());
      match a {
        case Ok(b) => body := b; r := Done;
        case Err(e) => r := Raised(e);
      }
    }

    /** `Section.remove`. */
    method Remove(value: DataLoader) returns (r: Outcome)
      requires body.SectionBody?
      modifies this
      ensures var a := RemoveMember(old(body), old(value.State()));
        (a.Ok? ==> r == Done && body == a.value) && (a.Err? ==> r == Raised(a.error) && body == old(body))
      ensures path == old(path)
    {
      var a := RemoveMember(body, value.State());
      match a {
        case Ok(b) => body := b; r := Done;
        case Err(e) => r := Raised(e);
      }
    }

    /** The `lname` setter. */
    method SetLname(value: Option<string>)
      requires body.IsPerson()
      modifies this
      ensures body == old(body).(person := old(body).person.(lname := AssignName(old(body).person.lname, value)))
      ensures path == old(path)
    {
      body := body.(person := body.person.(lname := AssignName(body.person.lname, value)));
    }

    /** The `fname` setter. */
    method SetFname(value: Option<string>)
      requires body.IsPerson()
      modifies this
      ensures body == old(body).(person := old(body).person.(fname := AssignName(old(body).person.fname, value)))
      ensures path == old(path)
    {
      body := body.(person := body.person.(fname := AssignName(body.person.fname, value)));
    }

    /** The `mname` setter. */
    method SetMname(value: Option<string>)
      requires body.IsPerson()
      modifies this
      ensures body == old(body).(person := old(body).person.(mname := AssignName(old(body).person.mname, value)))
      ensures path == old(path)
    {
      body := body.(person := body.person.(mname := AssignName(body.person.mname, value)));
    }
  }

  /** `dump` followed by `construct(path)` gives back a record equal to the
      one dumped. */
  method DumpThenConstruct(rec: DataLoader, fs: FileSystem) returns (copy: DataLoader)
    modifies fs
    ensures fresh(copy) && copy.State() == rec.State()
  {
    rec.Dump(fs);
    var r := DataLoader.Construct(fs, rec.path);
    copy := r.value;
  }

  /** `constructs(dumps())` gives back a record equal to the one dumped. */
  method DumpsThenConstructs(rec: DataLoader) returns (copy: DataLoader)
    ensures copy.State() == rec.State()
  {
    var s := rec.Dumps();
    copy := DataLoader.Constructs(s);
  }

  /** Loading a record whose file is missing writes the file and leaves the
      record as it was; loading it again reads that file and still leaves
      the record as it was. */
  method LoadMissingTwice(rec: DataLoader, fs: FileSystem) returns (first: Result<Snapshot>, second: Result<Snapshot>)
    requires rec.path !in fs.files && BodyNormal(rec.body)
    modifies rec, fs
    ensures rec.State() == old(rec.State())
    ensures fs.files == old(fs.files)[rec.path := rec.State()]
    ensures first == Ok(rec.State()) && second == Ok(rec.State())
  {
    first := rec.Load(fs);
    second := rec.Load(fs);
  }
}
