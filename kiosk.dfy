/**
 * The sign-in session, `MyApp::update` (src/main.rs:62-155), one frame at a
 * time. In a frame the user may have edited the buffer, clicked Submit and,
 * when the admin flag is set, clicked Export. Submit, or a buffer ending in
 * `%`, parses the buffer, stores a record on success and clears the buffer;
 * the admin flag is recomputed as "buffer equals the admin password" between
 * the two; Export appends every stored record's JSON to the minute's dump
 * file. A parser panic ends the process.
 *
 * `Step` states a frame's effect on values, block by block as the source
 * runs them; `KioskApp` is the object whose fields the source mutates, and its
 * `Submit`, `Label`, `Export` and `Update` methods are proved to follow them.
 */
module Kiosk {
  import opened Wrappers
  import opened Ascii
  import opened Clock
  import opened NameTags
  import opened Records
  import opened Json
  import opened Greetings
  import opened Dumps

  /** The user's input in one frame: the buffer after editing, and the clicks. */
  datatype Frame = Frame(typed: string, submitClicked: bool, exportClicked: bool)

  /** What the outside world answers in one frame: whether the store accepts an
      insert, the two clock reads behind a new record, the clock read behind the
      dump name, and whether the dump file opens. */
  datatype World = World(insertOk: bool, epochMillis: nat, insertTime: LocalTime, exportTime: LocalTime, openOk: bool)

  /** The session's state as values: the buffer, the admin flag, the stored
      records in insertion order, the dump files, and whether the process is
      still alive. */
  datatype Session = Session(name: string, admin: bool, store: seq<NameTagDB>, files: map<string, string>, running: bool)

  /** Parse a line and store its record; None when the parser panics. A rejected
      line and a failed insert leave the store as it was. */
  function Commit(line: string, store: seq<NameTagDB>, w: World): Option<seq<NameTagDB>>
    requires IsAscii(line)
  {
    match Parse(line)
    case Panicked => None
    case Rejected(_) => Some(store)
    case Parsed(t) => Some(if w.insertOk then store + [Materialize(t, w.epochMillis, w.insertTime)] else store)
  }

  /** One frame of the session: the text edit and the Submit block, the label
      block, then the Export button; a panic ends the frame and the process. */
  function Step(s: Session, adminPass: string, f: Frame, w: World): Session
    requires IsAscii(f.typed)
  {
    var s1 := SubmitStep(s, f, w);
    if !s1.running then s1
    else
      var s2 := LabelStep(s1, adminPass, w);
      if !s2.running then s2 else ExportStep(s2, f, w)
  }

  /** The edited buffer, committed and cleared when Submit was clicked. */
  function SubmitStep(s: Session, f: Frame, w: World): Session
    requires IsAscii(f.typed)
  {
    if !f.submitClicked then s.(name := f.typed, running := true)
    else if Commit(f.typed, s.store, w).None? then s.(name := f.typed, running := false)
    else s.(name := "", store := Commit(f.typed, s.store, w).value, running := true)
  }

  /** The label block of a frame: the admin flag becomes "buffer equals the
      password", then a buffer ending in `%` is committed as on Submit. */
  function LabelStep(s: Session, adminPass: string, w: World): Session
    requires IsAscii(s.name)
  {
    var s1 := s.(admin := s.name == adminPass);
    if !EndsWith(s1.name, '%') then s1
    else match Commit(s1.name, s1.store, w)
      case None => s1.(running := false)
      case Some(store) => s1.(name := "", store := store)
  }

  /** The Export button, shown only to the admin: every stored record is
      appended to the minute's dump file. */
  function ExportStep(s: Session, f: Frame, w: World): Session
  {
    if s.admin && f.exportClicked then s.(files := ExportFiles(s.files, s.store, w.exportTime, w.openOk)) else s
  }

  /** The line a frame commits, if any: the buffer on Submit, or a buffer ending in `%`. */
  function Committed(f: Frame): Option<string>
  {
    if f.submitClicked || EndsWith(f.typed, '%') then Some(f.typed) else None
  }

  /** Submit and the `%` auto-submit always clear the buffer; otherwise the
      buffer keeps what was typed. */
  lemma StepClearsBuffer(s: Session, adminPass: string, f: Frame, w: World)
    requires IsAscii(f.typed)
    ensures var s' := Step(s, adminPass, f, w);
      s'.running ==> s'.name == if Committed(f).Some? then "" else f.typed
  {
  }

  /** The admin flag is the buffer compared with the password, after a Submit
      clear and before a `%` clear. */
  lemma StepAdmin(s: Session, adminPass: string, f: Frame, w: World)
    requires IsAscii(f.typed)
    ensures var s' := Step(s, adminPass, f, w);
      s'.running ==> s'.admin == ((if f.submitClicked then "" else f.typed) == adminPass)
  {
  }

  /** The store grows by exactly the committed line's record when it parses and
      the insert succeeds, and is otherwise unchanged; a panic changes neither
      the store nor the files. */
  lemma StepStore(s: Session, adminPass: string, f: Frame, w: World)
    requires IsAscii(f.typed)
    ensures var s' := Step(s, adminPass, f, w);
      && (s'.running <==> Committed(f).None? || !Parse(f.typed).Panicked?)
      && (!s'.running ==> s'.store == s.store && s'.files == s.files)
      && (s'.running ==>
            s'.store == (if Committed(f).Some? && Parse(f.typed).Parsed? && w.insertOk
                         then s.store + [Materialize(Parse(f.typed).tag, w.epochMillis, w.insertTime)]
                         else s.store))
  {
    if !f.submitClicked && EndsWith(f.typed, '%') {
      assert f.typed != "";
    }
  }

  /** Export happens only when the admin flag is set and Export was clicked; it
      then appends the JSON of every stored record, including one stored in
      this frame, to the minute's dump file. */
  lemma StepExport(s: Session, adminPass: string, f: Frame, w: World)
    requires IsAscii(f.typed)
    ensures var s' := Step(s, adminPass, f, w);
      s'.files == if s'.running && s'.admin && f.exportClicked
                  then ExportFiles(s.files, s'.store, w.exportTime, w.openOk)
                  else s.files
  {
    var s1 := SubmitStep(s, f, w);
    SubmitKeepsFiles(s, f, w);
    if s1.running {
      LabelKeepsFiles(s1, adminPass, w);
    }
  }

  lemma SubmitKeepsFiles(s: Session, f: Frame, w: World)
    requires IsAscii(f.typed)
    ensures var s1 := SubmitStep(s, f, w); s1.files == s.files && IsAscii(s1.name)
  {
  }

  lemma LabelKeepsFiles(s: Session, adminPass: string, w: World)
    requires IsAscii(s.name)
    ensures LabelStep(s, adminPass, w).files == s.files
  {
  }

  /** A run of frames; it stops at the first panic. */
  function Run(s: Session, adminPass: string, frames: seq<Frame>, worlds: seq<World>): Session
    requires |worlds| == |frames|
    requires forall k | 0 <= k < |frames| :: IsAscii(frames[k].typed)
    decreases |frames|
  {
    if frames == [] || !s.running then s
    else Run(Step(s, adminPass, frames[0], worlds[0]), adminPass, frames[1..], worlds[1..])
  }

  /** Over any run the store only grows at its end and the dump files only grow
      at their ends: nothing is updated, deleted or truncated. */
  lemma {:induction false} RunAppendOnly(s: Session, adminPass: string, frames: seq<Frame>, worlds: seq<World>)
    requires |worlds| == |frames|
    requires forall k | 0 <= k < |frames| :: IsAscii(frames[k].typed)
    ensures var r := Run(s, adminPass, frames, worlds);
      && s.store <= r.store
      && (forall p | p in s.files :: p in r.files && s.files[p] <= r.files[p])
    decreases |frames|
  {
    if frames != [] && s.running {
      var s1 := Step(s, adminPass, frames[0], worlds[0]);
      StepStore(s, adminPass, frames[0], worlds[0]);
      StepExport(s, adminPass, frames[0], worlds[0]);
      if s1.running && s1.admin && frames[0].exportClicked {
        ExportAppends(s.files, s1.store, worlds[0].exportTime, worlds[0].openOk);
      }
      RunAppendOnly(s1, adminPass, frames[1..], worlds[1..]);
    }
  }

  /** The kiosk application object: the fields `update` reads and writes. */
  class KioskApp {
    const adminPass: string
    var name: string
    var admin: bool
    var rows: seq<Row>
    var files: map<string, string>
    var running: bool

    /** Every stored row reads back as a record, so the export's unwraps never fail. */
    ghost predicate Valid()
      reads this
    {
      AllDecode(rows)
    }

    ghost function State(): Session
      reads this
      requires Valid()
    {
      Session(name, admin, DecodeAll(rows), files, running)
    }

    /** `MyApp::new` after the configuration is read and the store opened with
        the records of earlier sessions. */
    constructor (adminPass: string, stored: seq<NameTagDB>, dumps: map<string, string>)
      ensures Valid() && this.adminPass == adminPass
      ensures State() == Session("Joe", false, stored, dumps, true)
    {
      this.adminPass := adminPass;
      name := "Joe";
      admin := false;
      rows := ToRows(stored);
      files := dumps;
      running := true;
      ScanRoundTrip(stored);
    }

    /** The store's insert; `ok` says whether the database accepted the row. */
    method Insert(r: NameTagDB, ok: bool)
      requires Valid()
      modifies this`rows
      ensures Valid()
      ensures DecodeAll(rows) == old(DecodeAll(rows)) + if ok then [r] else []
    {
      if ok {
        DecodeAppend(rows, r);
        rows := rows + [ToRow(r)];
      }
    }

    /** Parse the buffer, store its record, and clear the buffer; reports a panic
        instead, leaving everything as it was. */
    method CommitName(w: World) returns (panicked: bool)
      requires Valid() && IsAscii(name)
      modifies this`rows, this`name
      ensures Valid()
      ensures panicked == Commit(old(name), old(DecodeAll(rows)), w).None?
      ensures panicked ==> rows == old(rows) && name == old(name)
      ensures !panicked ==> name == "" && DecodeAll(rows) == Commit(old(name), old(DecodeAll(rows)), w).value
      ensures IsAscii(name)
    {
      var parsed := Parse(name);
      if parsed.Panicked? {
        return true;
      }
      if parsed.Parsed? {
        Insert(Materialize(parsed.tag, w.epochMillis, w.insertTime), w.insertOk);
      }
      name := "";
      return false;
    }

    /** Write every stored record's JSON to the minute's dump file, opened for
        appending; nothing is written when the open fails. */
    method Export(now: LocalTime, openOk: bool)
      requires Valid()
      modifies this`files
      ensures files == ExportFiles(old(files), DecodeAll(rows), now, openOk)
    {
      var path := DumpName(now);
      var base := FileContents(files, path);
      if openOk {
        files := files[path := base];
      }
      var i := 0;
      DumpTextEmpty();
      assert rows[..0] == [] && DecodeAll(rows[..0]) == [];
      assert base + DumpText(DecodeAll(rows[..0])) == base;
      while i < |rows|
        invariant 0 <= i <= |rows| && AllDecode(rows[..i])
        invariant !openOk ==> files == old(files)
        invariant openOk ==> files == old(files)[path := base + DumpText(DecodeAll(rows[..i]))]
      {
        DecodePrefix(rows, i);
        if openOk {
          var r := FromRow(rows[i]).value;
          AppendStep(old(files), path, base, DecodeAll(rows[..i]), r);
          files := files[path := files[path] + ToJson(r)];
        }
        i := i + 1;
      }
      assert rows[..i] == rows;
    }

    /** The text edit and the Submit block of `update`. */
    method Submit(f: Frame, w: World)
      requires Valid() && IsAscii(f.typed)
      modifies this`name, this`rows, this`running
      ensures Valid()
      ensures State() == SubmitStep(old(State()), f, w)
      ensures IsAscii(name)
    {
      ghost var s0 := State();
      name := f.typed;
      running := true;
      if f.submitClicked {
        var panicked := CommitName(w);
        if panicked {
          running := false;
          assert State() == s0.(name := f.typed, running := false);
          return;
        }
        assert State() == s0.(name := "", store := Commit(f.typed, s0.store, w).value, running := true);
      } else {
        assert State() == s0.(name := f.typed, running := true);
      }
    }

    /** The label block of `update` up to the greeting: recompute the admin
        flag and auto-submit a buffer ending in `%`. */
    method Label(w: World)
      requires Valid() && running && IsAscii(name)
      modifies this`admin, this`name, this`rows, this`running
      ensures Valid()
      ensures State() == LabelStep(old(State()), adminPass, w)
      ensures IsAscii(name)
    {
      ghost var s0 := State();
      admin := name == adminPass;
      ghost var s1 := State();
      assert s1 == s0.(admin := s0.name == adminPass);
      if EndsWith(name, '%') {
        var panicked := CommitName(w);
        if panicked {
          running := false;
          assert State() == s1.(running := false);
          return;
        }
        assert State() == s1.(name := "", store := Commit(s1.name, s1.store, w).value);
      }
    }

    /** One frame of `update`; returns the greeting label when the process
        survives the frame. */
    method Update(f: Frame, w: World) returns (shown: string)
      requires Valid() && running && IsAscii(f.typed)
      modifies this
      ensures Valid()
      ensures State() == Step(old(State()), adminPass, f, w)
      ensures IsAscii(name)
      ensures running ==> shown == Greeting(name)
    {
      Submit(f, w);
      if !running {
        return "";
      }
      Label(w);
      if !running {
        return "";
      }
      shown := Greeting(name);
      if admin && f.exportClicked {
        ghost var s2 := State();
        Export(w.exportTime, w.openOk);
        assert State() == ExportStep(s2, f, w);
      }
    }
  }
}
