# School Database System — record store, page manager and geometry parsing in Dafny

This project models the logic core of a desktop records manager for school
personnel (students, teachers, sections). The manager keeps each record in its
own pickled file. Three parts are modelled:

- **The record store** (`src/data.py`). `DataLoader` binds one in-memory record
  to one file path. It provides `dump`/`dumps`, `construct`/`constructs`,
  `load`/`loads` (a missing file makes `load` write the record instead) and the
  `path` setter (remove the old file, then dump at the new path). Each record
  class copies a fixed set of fields in its `load`. The Person name setters
  title-case what they are given and ignore non-strings. `Settings` can restore
  its defaults. A `Section` keeps lists of teacher and student paths that `add`
  and `remove` maintain.
- **`PageManager` and `Tooltip.tip_pos_calc`** (`src/gui.py`). PageManager has
  a name→page registry with a current and a previous page. The tooltip
  placement is integer arithmetic on the screen size, the label size and the
  pointer position.
- **`extract_geometry`** (`src/misc.py`). It splits a Tk geometry string
  `"WxH+X+Y"`.

How the model is laid out:

- `common.dfy` (`Common`): optional values, the Python exceptions raised, and
  results.
- `casing.dfy` (`Casing`): `str.title()` and `str.lower()` over ASCII.
- `records.dfy` (`Records`): the record kinds as one tagged variant `Body`
  (one case per class deriving from DataLoader), the field copy of every
  `load`, the name setters, Section membership, and the code as written where
  it is defective.
- `store.dfy` (`Store`): the disk as a `FileSystem` object holding
  `files: map<Path, Snapshot>`, and the `DataLoader` class. Its methods change
  `path`, `body` and the disk in place. Each method is proved against a
  function of the old state (`MoveFiles`, `LoadFrom`, `AddMember`, …), and the
  lemmas about those functions carry the properties.
- `pages.dfy` (`Pages`): the `PageManager` class and the functions that
  specify its operations.
- `tooltip.dfy` (`Tooltip`): `TipPosCalc`.
- `geometry.dfy` (`Geometry`): `str.split`, its inverse `Join`, and
  `ExtractGeometry`.

Python's inheritance (Person → Student/Teacher) becomes the variant `Body`.
The isinstance checks of `Section.add`/`remove` and of each `load` become
tests on the variant.

What the code does at points where one might expect otherwise:

- `Section.remove` of a path not in the list raises `ValueError`, from
  `list.remove`.
- `Section.add` and `Section.remove` raise `TypeError` for anything other
  than a Teacher or Student.
- `load` copies the fields it reads onto the record it was called on, and
  returns what it read. When the file exists, that is the freshly unpickled
  record. When the file is missing, it is the record itself. The model
  returns the snapshot read.
- The Section adviser is stored as a path string (`_adviser: str`).

## Model

| member | source | states |
|---|---|---|
| Casing.Title | src/data.py:266 | `title()` keeps the length of the string |
| Casing.TitleAt | src/data.py:266 | character by character, `title()` upper-cases the first character and every character after an uncased one, and lower-cases every character after a cased one |
| Casing.TitleIdempotent | src/data.py:266 | title-casing an already title-cased string changes nothing |
| Casing.Lower | src/data.py:247 | `lower()` turns each upper-case letter into its lower-case counterpart (code point + 32), changes no other character, and leaves no upper-case letter |
| Casing.LowerIdempotent | src/data.py:247 | lower-casing a lower-cased string changes nothing |
| Casing.LowerTitle | src/data.py:247-266 | title-casing a string first does not change what lower-casing it gives |
| Records.AssignName | src/data.py:263-282 | a name setter given a string stores it title-cased; given `None` it keeps the old value; a normalised name stays normalised |
| Records.AssignNameIdempotent | src/data.py:263-282 | assigning the same value twice stores the same as assigning it once |
| Records.NewPerson | src/data.py:229-249 | construction stores `sex` lower-cased, every given name title-cased, absent names as `None`, and the other fields as given |
| Records.CopyFields | src/data.py:112-345 | after each class's `load`/`loads`, AppState, Settings and Section hold exactly the fields read. A Person/Teacher copies every field except the picture. Each stored name goes through its setter, so it is stored title-cased, and a stored name of `None` leaves that name unchanged. A Student also copies `lrn` and `sy`. Reading from a record of another class raises AttributeError, keeping the assignments made before it |
| Records.CopyFromSelf | src/data.py:70-77 | copying a record onto itself, which is what `load` does when the file is missing, changes nothing |
| Records.CopyFieldsIdempotent | src/data.py:284-297 | copying the same record twice leaves what copying it once left |
| Records.RestoreDefaults | src/data.py:158-160 | `restore_last` becomes False and `title` becomes 'School Database System'; `expand` is kept |
| Records.AppendIfAbsent | src/data.py:190-193 | the path ends up in the list exactly when absent before it is appended at the end, and a duplicate-free list stays duplicate-free |
| Records.FirstIndex | src/data.py:200-202 | the index found holds the path and no earlier index does |
| Records.RemoveFirst | src/data.py:200-202 | `list.remove` raises ValueError exactly when the path is absent. Otherwise it deletes the first occurrence of the path and keeps the other entries in order: one fewer entry, one fewer of that path in the multiset, and nothing else changes |
| Records.RemoveFirstNoDup | src/data.py:200-202 | in a duplicate-free list, removal leaves no occurrence of the path and no duplicate |
| Records.RemoveAppended | src/data.py:190-202 | removing a path just appended to a list that lacked it restores the list |
| Records.AddMember | src/data.py:186-195 | `Section.add` raises TypeError unless given a Teacher or Student. A Student's path is appended once to the students if absent; otherwise they are unchanged. A Teacher's path is appended once to the teachers if absent and not the adviser's; otherwise they are unchanged. Nothing else changes, and a valid Section (no duplicates, adviser not among the teachers) stays valid |
| Records.RemoveMember | src/data.py:197-204 | `Section.remove` raises TypeError unless given a Teacher or Student, and ValueError when the path is not in the list. Otherwise it deletes the path's first occurrence from that list, keeps the order of the rest, and changes nothing else |
| Records.AddMemberIdempotent | src/data.py:186-195 | adding the same member twice leaves exactly what adding it once left |
| Records.RemoveMemberValid | src/data.py:197-204 | removing from a valid Section keeps it valid, and the removed path is gone |
| Records.AddThenRemove | src/data.py:186-204 | removing a member just added to a Section that lacked it gives back the Section |
| Records.NameGetterAsWritten | src/data.py:255-261 | the `fname`/`mname` getters as written raise RecursionError for every record |
| Records.NameSetThenGet | src/data.py:263-282 | the getter as intended returns the title-cased value the setter stored |
| Records.AddMemberAsWritten | src/data.py:186-195 | as written, adding a Teacher not yet listed raises AttributeError from the missing `self.adviser` |
| Records.CopyFieldsAsWritten | src/data.py:206-297 | as written, `Section.load` copies only `name` and then raises AttributeError; `Person.load` copies only `lname` and then raises RecursionError |
| Records.LoadAsWrittenAlwaysFails | src/data.py:206-297 | as written, loading a Section or Person fails even from the record itself; the corrected copy succeeds |
| Store.MoveFiles | src/data.py:27-34 | setting `path` to its current value changes nothing. Otherwise, if the old file is missing, FileNotFoundError is raised and nothing changes. If it exists, the old key is gone, the new key holds the record's current state, the record's path is the new one, and no other file changes. The store stays well formed |
| Store.SectionMoveAsWritten | src/data.py:175-182 | as written, changing a Section's path removes its file and raises AttributeError, leaving no file at the old or the new path |
| Store.LoadFrom | src/data.py:63-77 | `load` on a missing file writes the record there and leaves it unchanged. `load` on an existing file leaves the disk as it is and returns the stored snapshot. The fields after it are those `CopyFields` gives from what was read. It succeeds exactly when the stored record has the fields the class reads, and otherwise raises AttributeError |
| Store.LoadIdempotent | src/data.py:63-77 | a second `load` right after a successful one changes nothing: same disk, same fields, same result |
| Store.DataLoader.AppState | src/data.py:106-110 | a new AppState sits at the fixed app-state path with no current or previous page |
| Store.DataLoader.Settings | src/data.py:131-136 | a new Settings sits at the fixed settings path with the default settings |
| Store.DataLoader.Section | src/data.py:163-169 | a new Section has the given name and adviser, with no teachers or students |
| Store.DataLoader.Person | src/data.py:229-249 | a new Person holds the fields `NewPerson` gives |
| Store.DataLoader.Student | src/data.py:315-327 | a new Student holds the Person fields plus `lrn` and `sy` |
| Store.DataLoader.Teacher | src/data.py:348-361 | a new Teacher holds the Person fields; the advisory class is dropped |
| Store.DataLoader.Dump | src/data.py:92-97 | `dump` overwrites the file at the record's path with its full snapshot and touches no other file |
| Store.DataLoader.Dumps | src/data.py:99-103 | `dumps` is the record's full snapshot |
| Store.DataLoader.Construct | src/data.py:36-48 | `construct(p)` gives a new record equal to the one stored at `p`, or FileNotFoundError |
| Store.DataLoader.Constructs | src/data.py:50-61 | `constructs(s)` gives a new record equal to the snapshot |
| Store.DataLoader.SetPath | src/data.py:27-34 | the path setter changes the disk and the path as `MoveFiles` says, and keeps the fields |
| Store.DataLoader.Load | src/data.py:63-77 | `load` changes the disk and the fields, and returns, as `LoadFrom` says |
| Store.DataLoader.Loads | src/data.py:79-90 | `loads` copies the class's fields from the snapshot and returns it, or raises AttributeError |
| Store.DataLoader.RestoreDefaults | src/data.py:158-160 | the Settings' fields become `RestoreDefaults` of the old ones |
| Store.DataLoader.Add | src/data.py:186-195 | `Section.add` changes the lists as `AddMember` says; on an error nothing changes |
| Store.DataLoader.Remove | src/data.py:197-204 | `Section.remove` changes the lists as `RemoveMember` says; on an error nothing changes |
| Store.DataLoader.SetLname | src/data.py:263-268 | the `lname` setter stores `AssignName` of the old value and the argument |
| Store.DataLoader.SetFname | src/data.py:270-275 | the `fname` setter stores `AssignName` of the old value and the argument |
| Store.DataLoader.SetMname | src/data.py:277-282 | the `mname` setter stores `AssignName` of the old value and the argument |
| Store.DumpThenConstruct | src/data.py:36-97 | `dump` followed by `construct(path)` gives back a record equal to the one dumped |
| Store.DumpsThenConstructs | src/data.py:50-103 | `constructs(dumps())` gives back a record equal to the one dumped |
| Store.LoadMissingTwice | src/data.py:63-77 | loading a record whose file is missing creates the file, and loading again reads it; the record is unchanged throughout and both loads return it |
| Pages.Switch | src/gui.py:223-237 | assigning the current value changes nothing. Assigning a registered name makes it current, makes the old current page previous, shows the new page and hides the old one. An unregistered name raises KeyError with current and previous unchanged, though the old page is already hidden. The registry never changes, and no other page's visibility changes |
| Pages.SwitchBack | src/gui.py:239-243 | a successful `back()` exchanges the current and previous pages; an unregistered previous page raises KeyError |
| Pages.BackTwice | src/gui.py:239-243 | two successful `back()` calls restore both the current and the previous page |
| Pages.WithPage | src/gui.py:245-262 | `add_page` maps the name to the page and changes no other name; without `overwrite`, an existing name raises ValueError |
| Pages.WithoutPage | src/gui.py:264-273 | `del_page` removes exactly that name; an unregistered name raises KeyError |
| Pages.AddThenDelPage | src/gui.py:245-273 | deleting a page just added under a new name restores the registry |
| Pages.PageManager.constructor | src/gui.py:213-217 | a new PageManager has no pages and no current or previous page |
| Pages.PageManager.SetCurrentPage | src/gui.py:223-237 | the setter changes the state as `Switch` says |
| Pages.PageManager.Back | src/gui.py:239-243 | `back` changes the state as `SwitchBack` says |
| Pages.PageManager.AddPage | src/gui.py:245-262 | `add_page` changes the registry as `WithPage` says and nothing else |
| Pages.PageManager.DelPage | src/gui.py:264-273 | `del_page` changes the registry as `WithoutPage` says and nothing else |
| Tooltip.TipPosCalc | src/gui.py:342-385 | y is never negative. If the padded tooltip fits, it sits at (mouse_x + dx, mouse_y + dy). On right overflow x becomes mouse_x − dx − width. On bottom overflow y becomes mouse_y − dy − height, clamped at 0. A tooltip that fits on one side of an on-screen pointer lies wholly on screen, and the pointer is never covered horizontally |
| Tooltip.TipPosDefault | src/gui.py:342-343 | with the default offset (10, 6) and padding (6, 3, 6, 3), the tooltip sits 10 right of the pointer when it fits and 22 + label width left of it otherwise |
| Geometry.Split | src/misc.py:16-17 | `str.split` gives at least one piece, and no piece contains the separator |
| Geometry.JoinSplit | src/misc.py:16-17 | joining the pieces with the separator reproduces the input |
| Geometry.SplitMany | src/misc.py:16-17 | there is more than one piece exactly when the separator occurs |
| Geometry.SplitJoin | src/misc.py:16-17 | splitting what was joined from separator-free parts gives back the parts |
| Geometry.ExtractGeometry | src/misc.py:8-19 | IndexError exactly when the input has no `x`. Otherwise the first element is the text before the first `x`, the rest are the `+`-separated pieces of the text up to the second `x`, and all are strings. Rejoining them reproduces the input up to its second `x` |
| Geometry.ExtractRejoin | src/misc.py:16-19 | `extract_geometry` inverts the rejoin for parts without `x` and, after the first, without `+` |
| Geometry.ExtractWellFormed | src/misc.py:16-19 | `"WxH+X+Y"` with no `x` or `+` inside W, H, X, Y gives `(W, H, X, Y)` |
| Geometry.RejoinSingleX | src/misc.py:16-19 | on any input with exactly one `x`, rejoining the result reproduces the input |

## Left out

- Real file I/O and the pickle byte format. The disk is a map from paths to record snapshots, and pickling is an exact snapshot. Failures of `open` other than a missing file are not modelled, and neither are unreadable or corrupt files. `load`'s `load` may fail in other ways: unpickling may fail with something other than OSError, or the fallback `dump` may fail. Either way `d` is unbound and `finally: return d` raises UnboundLocalError in place of the original exception. This is not modelled.
- The picture (`ImageTk.PhotoImage`) and the birthday (`datetime.date`) are opaque values that are stored and copied, never inspected.
- `str.title()` and `str.lower()` are modelled over ASCII letters. Every other character counts as uncased and is left as it is.
- The name setters ignore any value without a `title()` method. The model represents all such values as `None`.
- The `sex` argument is any string. The `Literal['male', 'female']` annotation is not enforced by the source and not by the model.
- The `path` and `advisory_cls` properties of Teacher are left out. `advisory_cls` is a stub whose getter and setter do nothing. The Teacher path setter's `super().path = value` raises AttributeError before anything changes.
- The fixed paths are `os.path.join` results on a POSIX system.
- Pages.Switch: the source compares names with `is not` (identity). The model compares by value, so it does not capture two equal names that are distinct string objects.
- Everything tkinter is left out: the packing behind `Page.visible`, HomePage and NewPage layout, Tooltip scheduling, `show` and `hide`, and `DynamicResize` (floating-point font scaling). Page visibility is modelled as the set of pages shown.
- The application window in `src/main.py` is left out. So are its geometry arithmetic (floating point) and the glue that copies PageManager state to and from AppState.
- src/data.py has no directory-scanning loader and no search function. Neither is modelled.

## Findings

| source | as written | input that shows it | evidently intended | confidence | as-written member | corrected member |
|---|---|---|---|---|---|---|
| src/data.py:255-261 | the `fname` and `mname` getters return `self.fname` and `self.mname`, calling themselves | reading `fname` of any Person, Student or Teacher | return `self._fname` and `self._mname` | high; not executed | Records.NameGetterAsWritten | Records.NameSetThenGet |
| src/data.py:284-297 | `Person.load` reads `d.fname`, whose getter never returns, so every Person, Student and Teacher load raises RecursionError after copying `lname` | `load()` of any Person whose file exists or is missing | copy every listed field | high; not executed | Records.CopyFieldsAsWritten | Records.CopyFields |
| src/data.py:189 | `Section.add` reads `self.adviser.path`, but a Section has only `_adviser`, a path string | adding to any Section a Teacher whose path is not yet in `teachers` | compare the teacher's path with the adviser path `_adviser` | high; not executed | Records.AddMemberAsWritten | Records.AddMember |
| src/data.py:211 | `Section.load` reads `d.adviser`, which no Section has, so it raises AttributeError after copying `name` | `load()` of any Section | copy `_adviser` with the other fields | high; not executed | Records.CopyFieldsAsWritten | Records.CopyFields |
| src/data.py:175-182 | the `Section.path` setter removes the old file, then `super().path = value` raises AttributeError. The record then has no file. Calling the DataLoader setter instead would remove the old file a second time (src/data.py:31) and raise FileNotFoundError | setting a stored Section's `path` to a new value | remove the old file once, set the path, dump at the new path | high; not executed | Store.SectionMoveAsWritten | Store.MoveFiles |
