/** The skill store and the snapshot ledger of `skill-manager.py`.

    The skills root is a map from entry name to entry; the version root is a
    map from skill name to that skill's version directory, itself a map from
    file name to file text. A skill name missing from `versions` is a skill
    whose version directory does not exist. The current time is a parameter. */
module SkillManager {
  import opened Strings
  import opened Ordering
  import opened Timestamps
  import opened VersionHeader
  import opened FrontMatter
  import opened SkillTemplate

  const AutoSaveMessage := "回滚前自动保存"
  const InitialMessage := "初始创建"
  const UpdateMessage := "更新前保存"
  const NoDescription := "无描述"
  const AuxiliaryFolders: set<string> := {"scripts", "references"}

  /** An entry of the skills root: a plain file, or a directory with its
      `SKILL.md` (None when it has none) and the names of its sub-folders. */
  datatype Entry = PlainFile | SkillDir(document: Option<string>, folders: set<string>)

  /** Why an operation stopped; the source prints a message for each and returns,
      or fails with an exception for the last two. */
  datatype Failure = SkillNotFound | AlreadyExists | NoHistory | InvalidIndex | MalformedSnapshot | WriteFailed

  datatype Result<T> = Ok(value: T) | Err(failure: Failure)

  /** One line of `list_history`: the snapshot file and its message. */
  datatype HistoryEntry = HistoryEntry(file: string, message: string)

  /** One skill of `list_skills`: its directory, shown name and description. */
  datatype SkillInfo = SkillInfo(dir: string, name: string, description: string)

  /** The text of `<skill>/SKILL.md`, when the skill is a directory holding one. */
  function DocumentOf(skills: map<string, Entry>, name: string): Option<string> {
    if name in skills && skills[name].SkillDir? then skills[name].document else None
  }

  /** The skill's entry is a directory, so `write_text` can create `SKILL.md` in it. */
  predicate IsDir(skills: map<string, Entry>, name: string) {
    name in skills && skills[name].SkillDir?
  }

  /** The snapshots of a skill; empty when it has no version directory. */
  function LedgerOf(versions: map<string, map<string, string>>, name: string): map<string, string> {
    if name in versions then versions[name] else map[]
  }

  /** The history as `sorted(version_dir.iterdir(), reverse=True)` lists it. */
  ghost function History(versions: map<string, map<string, string>>, name: string): (h: seq<string>)
    ensures |h| == |LedgerOf(versions, name).Keys|
    ensures forall f :: f in h <==> f in LedgerOf(versions, name)
  {
    Listing(LedgerOf(versions, name).Keys)
  }

  /** The 1-based position a user gives is within a history of `count` snapshots. */
  predicate ValidIndex(index: int, count: nat) {
    1 <= index <= count
  }

  /** The text `save_version` writes for `document` at `now`. */
  function Snapshot(now: Timestamp, message: string, document: string): string
    requires now.Valid()
  {
    Wrap(Format(now), message, document)
  }

  /** The version root after `save_version(name, message)` at `now`: nothing
      changes when the skill has no `SKILL.md`; otherwise the version directory
      exists afterwards and the snapshot file of `now` holds the current document,
      as `read_text` returns it, behind its header, replacing a snapshot of the
      same second. */
  function AfterSave(skills: map<string, Entry>, versions: map<string, map<string, string>>,
                     name: string, message: string, now: Timestamp): (r: map<string, map<string, string>>)
    requires now.Valid()
    ensures DocumentOf(skills, name).None? ==> r == versions
    ensures DocumentOf(skills, name).Some? ==>
      name in r && r[name] == LedgerOf(versions, name)[SnapshotName(now) := Snapshot(now, message, UniversalNewlines(DocumentOf(skills, name).value))]
    ensures forall n :: n in versions ==> n in r && versions[n].Keys <= r[n].Keys
    ensures forall n :: n != name ==> (n in r <==> n in versions) && (n in r ==> r[n] == versions[n])
    ensures forall f :: f in LedgerOf(versions, name) && f != SnapshotName(now) ==>
      f in LedgerOf(r, name) && LedgerOf(r, name)[f] == LedgerOf(versions, name)[f]
  {
    match DocumentOf(skills, name)
    case None => versions
    case Some(document) =>
      versions[name := LedgerOf(versions, name)[SnapshotName(now) := Snapshot(now, message, UniversalNewlines(document))]]
  }

  /** A save at a second no snapshot has yet grows the history by exactly one. */
  lemma FreshSaveAddsOne(skills: map<string, Entry>, versions: map<string, map<string, string>>,
                         name: string, message: string, now: Timestamp)
    requires now.Valid() && DocumentOf(skills, name).Some?
    requires SnapshotName(now) !in LedgerOf(versions, name)
    ensures |LedgerOf(AfterSave(skills, versions, name, message, now), name)| == |LedgerOf(versions, name)| + 1
  {
    var before := LedgerOf(versions, name);
    var after := LedgerOf(AfterSave(skills, versions, name, message, now), name);
    assert after.Keys == before.Keys + {SnapshotName(now)};
  }

  /** The file name of a snapshot holds neither a line break nor the closing marker. */
  lemma FormatIsPlain(now: Timestamp)
    requires now.Valid()
    ensures '\n' !in Format(now) && '\r' !in Format(now) && '-' !in Format(now)
    ensures Free(Format(now), Closing)
  {
    FreeOfMissing(Format(now), Closing, 0);
  }

  /** A snapshot written by `save_version` holds no carriage return when its
      message holds none, so `read_text` returns it as written. */
  lemma SnapshotAsRead(now: Timestamp, message: string, document: string)
    requires now.Valid() && '\r' !in message
    ensures UniversalNewlines(Snapshot(now, message, UniversalNewlines(document)))
         == Snapshot(now, message, UniversalNewlines(document))
  {
    FormatIsPlain(now);
    UniversalNewlinesFree(document);
    UniversalNewlinesPlain(Snapshot(now, message, UniversalNewlines(document)));
  }

  /** Rolling back to a snapshot `save_version` wrote restores the document that
      was saved, as it was read and stripped, when the message holds no "-->". */
  lemma SnapshotRestores(now: Timestamp, message: string, document: string)
    requires now.Valid() && Free(message, Closing)
    ensures Unwrap(UniversalNewlines(Snapshot(now, message, UniversalNewlines(document))))
         == Some(Strip(UniversalNewlines(document)))
  {
    FormatIsPlain(now);
    UniversalNewlinesFree(document);
    UnwrapWrapAsRead(Format(now), message, UniversalNewlines(document));
  }

  /** `list_history` shows the message a snapshot was saved with, stripped, for
      a message on one line without a carriage return. */
  lemma SnapshotMessage(now: Timestamp, message: string, document: string)
    requires now.Valid() && '\n' !in message && '\r' !in message
    ensures MessageOf(UniversalNewlines(Snapshot(now, message, UniversalNewlines(document)))) == Strip(message)
  {
    FormatIsPlain(now);
    SnapshotAsRead(now, message, document);
    MessageOfWrap(Format(now), message, UniversalNewlines(document));
  }

  /** A snapshot taken later than every snapshot already in the history is
      listed first, so index 1 names it. */
  lemma NewestListedFirst(ledger: map<string, string>, now: Timestamp, text: string)
    requires now.Valid()
    requires forall f :: f in ledger ==> exists t: Timestamp :: t.Valid() && Before(t, now) && f == SnapshotName(t)
    ensures Listing(ledger[SnapshotName(now) := text].Keys)[0] == SnapshotName(now)
  {
    var names := ledger[SnapshotName(now) := text].Keys;
    forall f | f in names && f != SnapshotName(now) ensures LexLess(f, SnapshotName(now)) {
      var t: Timestamp :| t.Valid() && Before(t, now) && f == SnapshotName(t);
      LaterSnapshotSortsAfter(t, now);
    }
    GreatestListedFirst(names, SnapshotName(now));
  }

  /** The entries `list_skills` shows: directories whose name does not start
      with "." and that hold a `SKILL.md`. */
  predicate Listed(skills: map<string, Entry>, dir: string) {
    dir in skills && skills[dir].SkillDir? && !StartsWith(dir, ".") && skills[dir].document.Some?
  }

  /** What `list_skills` shows for one skill: the name and description of the
      front matter of `SKILL.md` as read, or the directory name and "无描述"
      when a key is missing. */
  function Describe(dir: string, document: string): SkillInfo {
    var metadata := Metadata(UniversalNewlines(document));
    SkillInfo(dir,
      if "name" in metadata then metadata["name"] else dir,
      if "description" in metadata then metadata["description"] else NoDescription)
  }

  /** The directories of a listing, in its order. */
  ghost function Dirs(infos: seq<SkillInfo>): (dirs: seq<string>)
    ensures |dirs| == |infos|
    ensures forall i :: 0 <= i < |infos| ==> dirs[i] == infos[i].dir
  {
    seq(|infos|, i requires 0 <= i < |infos| => infos[i].dir)
  }

  /** `info` is what `list_skills` shows for the skill in its directory. */
  ghost predicate Shows(skills: map<string, Entry>, info: SkillInfo) {
    Listed(skills, info.dir) && info == Describe(info.dir, skills[info.dir].document.value)
  }

  /** Every element of `xs` satisfies `p`, stated from the last element back
      so that a loop appending to `xs` keeps it one step at a time. */
  ghost predicate AllSatisfy<T>(p: T -> bool, xs: seq<T>)
    decreases |xs|
  {
    xs == [] || (AllSatisfy(p, xs[..|xs| - 1]) && p(xs[|xs| - 1]))
  }

  lemma {:induction false} AllSatisfyEach<T>(p: T -> bool, xs: seq<T>)
    requires AllSatisfy(p, xs)
    ensures forall i :: 0 <= i < |xs| ==> p(xs[i])
    decreases |xs|
  {
    if xs != [] {
      var init := xs[..|xs| - 1];
      AllSatisfyEach(p, init);
      forall i | 0 <= i < |init| ensures xs[i] == init[i] { }
    }
  }

  /** The entry `list_skills` builds for one skill from its parsed `SKILL.md`. */
  method ReadSkillInfo(dir: string, document: string) returns (info: SkillInfo)
    ensures info == Describe(dir, document)
  {
    var metadata := ParseSkillMetadata(UniversalNewlines(document));
    var shown := if "name" in metadata then metadata["name"] else dir;
    var description := if "description" in metadata then metadata["description"] else NoDescription;
    info := SkillInfo(dir, shown, description);
  }

  /** A document without front matter is shown under its directory name, with "无描述". */
  lemma DescribeWithoutFrontMatter(dir: string, document: string)
    requires !StartsWith(document, Delimiter)
    ensures Describe(dir, document) == SkillInfo(dir, dir, NoDescription)
  {
    StartsWithUniversal(document, Delimiter);
  }

  /** `list_skills` shows a skill just made by `create_skill` with the name and
      description it was created with (or the placeholder description). */
  lemma CreatedSkillDescribed(name: string, description: string)
    requires '\n' !in name && '\n' !in description && '\r' !in name && '\r' !in description
    requires Free(name, Delimiter) && Free(description, Delimiter)
    ensures Describe(name, Template(name, description))
         == SkillInfo(name, Strip(name), Strip(DescriptionOrDefault(description)))
  {
    TemplateAsRead(name, description);
    FrontMatterMetadata(name, description, UniversalNewlines(Body(name)));
  }

  /** A skill created without a description is listed with the placeholder
      "待补充描述", not with "无描述". */
  lemma PlaceholderDescription(name: string)
    requires '\n' !in name && '\r' !in name && Free(name, Delimiter)
    ensures Describe(name, Template(name, "")).description == DefaultDescription
  {
    CreatedSkillDescribed(name, "");
    PlaceholderStripped();
  }

  /** `GLOBAL_SKILLS_DIR / name` exists: an entry of the skills root, or the
      root itself, which is what pathlib gives for "" and ".". */
  predicate Occupied(skills: map<string, Entry>, name: string) {
    name == "" || name == "." || name in skills
  }

  /** The text `rollback` writes back from a snapshot file: the file as read,
      with everything up to the first "-->" removed and the rest stripped when
      it mentions the header; None where `split("-->", 1)[1]` raises. */
  method RestoreText(snapshot: string) returns (r: Option<string>)
    ensures r == Unwrap(UniversalNewlines(snapshot))
  {
    var content := UniversalNewlines(snapshot);
    if Contains(content, Opening) {
      var parts := SplitOnce(content, Closing);
      if parts.None? {
        return None;
      }
      content := Strip(parts.value.1);
    }
    r := Some(content);
  }

  /** The skills root and the version root. */
  class Manager {
    var skills: map<string, Entry>
    var versions: map<string, map<string, string>>

    constructor (skills: map<string, Entry>, versions: map<string, map<string, string>>)
      ensures this.skills == skills && this.versions == versions
    {
      this.skills := skills;
      this.versions := versions;
    }

    /** `save_version`: returns the snapshot file name. */
    method SaveVersion(name: string, message: string, now: Timestamp) returns (r: Result<string>)
      requires now.Valid()
      modifies this
      ensures r == if DocumentOf(old(skills), name).None? then Err(SkillNotFound) else Ok(SnapshotName(now))
      ensures skills == old(skills)
      ensures versions == AfterSave(old(skills), old(versions), name, message, now)
    {
      if !(name in skills && skills[name].SkillDir? && skills[name].document.Some?) {
        return Err(SkillNotFound);
      }
      var document := skills[name].document.value;
      var ledger := if name in versions then versions[name] else map[];
      var file := SnapshotName(now);
      versions := versions[name := ledger[file := Wrap(Format(now), message, UniversalNewlines(document))]];
      r := Ok(file);
    }

    /** `create_skill`: a new directory with the template and the two empty
        folders, then the first snapshot. Returns that snapshot's file name. */
    method CreateSkill(name: string, description: string, now: Timestamp) returns (r: Result<string>)
      requires now.Valid()
      modifies this
      ensures Occupied(old(skills), name) ==> r == Err(AlreadyExists) && skills == old(skills) && versions == old(versions)
      ensures !Occupied(old(skills), name) ==>
        && r == Ok(SnapshotName(now))
        && skills == old(skills)[name := SkillDir(Some(Template(name, description)), AuxiliaryFolders)]
        && versions == old(versions)[name := LedgerOf(old(versions), name)[SnapshotName(now)
             := Snapshot(now, InitialMessage, UniversalNewlines(Template(name, description)))]]
    {
      if name == "" || name == "." || name in skills {
        return Err(AlreadyExists);
      }
      skills := skills[name := SkillDir(Some(Template(name, description)), AuxiliaryFolders)];
      r := SaveVersion(name, InitialMessage, now);
    }

    /** `update_skill`: a snapshot before editing, with the given message or "更新前保存". */
    method UpdateSkill(name: string, message: string, now: Timestamp) returns (r: Result<string>)
      requires now.Valid()
      modifies this
      ensures DocumentOf(old(skills), name).None? ==> r == Err(SkillNotFound) && versions == old(versions)
      ensures DocumentOf(old(skills), name).Some? ==> r == Ok(SnapshotName(now))
      ensures skills == old(skills)
      ensures versions == AfterSave(old(skills), old(versions), name, if message == "" then UpdateMessage else message, now)
    {
      if !(name in skills && skills[name].SkillDir? && skills[name].document.Some?) {
        return Err(SkillNotFound);
      }
      r := SaveVersion(name, if message == "" then UpdateMessage else message, now);
    }

    /** `list_history`: every snapshot from the newest file name to the oldest,
        with the message of its first "message:" line. */
    method ListHistory(name: string) returns (r: Result<seq<HistoryEntry>>)
      ensures name !in versions ==> r == Err(NoHistory)
      ensures name in versions ==> r.Ok? && |r.value| == |versions[name]|
      ensures name in versions ==> forall i :: 0 <= i < |r.value| ==>
        r.value[i].file == History(versions, name)[i] && r.value[i].message == MessageOf(UniversalNewlines(versions[name][r.value[i].file]))
    {
      if name !in versions {
        return Err(NoHistory);
      }
      var ledger := versions[name];
      var files := SortDescending(ledger.Keys);
      var entries: seq<HistoryEntry> := [];
      var i := 0;
      while i < |files|
        invariant 0 <= i <= |files|
        invariant |entries| == i
        invariant forall j :: 0 <= j < i ==> entries[j].file == files[j] && entries[j].message == MessageOf(UniversalNewlines(ledger[files[j]]))
      {
        var message := ExtractMessage(UniversalNewlines(ledger[files[i]]));
        entries := entries + [HistoryEntry(files[i], message)];
        i := i + 1;
      }
      r := Ok(entries);
    }

    /** `diff_versions`, up to the choice of the two files: the snapshots at
        positions v1 and v2 of the history. */
    method DiffVersions(name: string, v1: int, v2: int) returns (r: Result<(string, string)>)
      ensures name !in versions ==> r == Err(NoHistory)
      ensures name in versions && !(ValidIndex(v1, |versions[name]|) && ValidIndex(v2, |versions[name]|)) ==> r == Err(InvalidIndex)
      ensures name in versions && ValidIndex(v1, |versions[name]|) && ValidIndex(v2, |versions[name]|) ==>
        r == Ok((History(versions, name)[v1 - 1], History(versions, name)[v2 - 1]))
    {
      if name !in versions {
        return Err(NoHistory);
      }
      var files := SortDescending(versions[name].Keys);
      if v1 < 1 || v1 > |files| || v2 < 1 || v2 > |files| {
        return Err(InvalidIndex);
      }
      r := Ok((files[v1 - 1], files[v2 - 1]));
    }

    /** `rollback`: the target is chosen from the history as it stands, then the
        current document is saved with "回滚前自动保存", then the target is read,
        its header stripped, and written back as `SKILL.md`. Returns the target. */
    method Rollback(name: string, index: int, now: Timestamp) returns (r: Result<string>)
      requires now.Valid()
      modifies this
      ensures name !in old(versions) ==> r == Err(NoHistory) && skills == old(skills) && versions == old(versions)
      ensures name in old(versions) && !ValidIndex(index, |old(versions)[name]|) ==>
        r == Err(InvalidIndex) && skills == old(skills) && versions == old(versions)
      ensures name in old(versions) && ValidIndex(index, |old(versions)[name]|) ==>
        && versions == AfterSave(old(skills), old(versions), name, AutoSaveMessage, now)
        && RollbackOutcome(old(skills), versions[name], name, History(old(versions), name)[index - 1], r, skills)
    {
      if name !in versions {
        return Err(NoHistory);
      }
      var files := SortDescending(versions[name].Keys);
      if index < 1 || index > |files| {
        return Err(InvalidIndex);
      }
      var target := files[index - 1];
      var saved := SaveVersion(name, AutoSaveMessage, now);
      var restored := RestoreText(versions[name][target]);
      if restored.None? {
        return Err(MalformedSnapshot);
      }
      if !(name in skills && skills[name].SkillDir?) {
        return Err(WriteFailed);
      }
      skills := skills[name := SkillDir(Some(restored.value), skills[name].folders)];
      r := Ok(target);
    }

    /** `list_skills`: every listed skill once, in no particular order, with
        its shown name and description. */
    method ListSkills() returns (r: seq<SkillInfo>)
      ensures forall i :: 0 <= i < |r| ==> Shows(skills, r[i])
      ensures forall d :: d in Dirs(r) <==> Listed(skills, d)
      ensures forall i, j :: 0 <= i < j < |r| ==> r[i].dir != r[j].dir
    {
      r := [];
      ghost var store := skills;
      ghost var shows := (info: SkillInfo) => Shows(store, info);
      var rest := skills.Keys;
      while rest != {}
        invariant rest <= skills.Keys
        invariant AllSatisfy(shows, r)
        invariant forall d :: d in Dirs(r) <==> Listed(skills, d) && d !in rest
        invariant forall i, j :: 0 <= i < j < |r| ==> r[i].dir != r[j].dir
        decreases rest
      {
        var dir :| dir in rest;
        ghost var before := r;
        var entry := skills[dir];
        if entry.SkillDir? && !StartsWith(dir, ".") && entry.document.Some? {
          var info := ReadSkillInfo(dir, entry.document.value);
          assert shows(info);
          r := r + [info];
          assert r[..|r| - 1] == before;
          assert Dirs(r) == Dirs(before) + [dir];
        }
        rest := rest - {dir};
      }
      AllSatisfyEach(shows, r);
    }
  }

  /** How a rollback ends once the auto-save is done: `snapshots` is the version
      directory after the auto-save and `target` the file chosen before it. The
      header of the target is stripped; a target that mentions the header but
      has no "-->" fails, and so does a skill that is not a directory; otherwise
      the restored text becomes `SKILL.md`, whether or not it existed. */
  ghost predicate RollbackOutcome(skills: map<string, Entry>, snapshots: map<string, string>, name: string,
                                  target: string, r: Result<string>, skillsAfter: map<string, Entry>)
  {
    target in snapshots &&
    match Unwrap(UniversalNewlines(snapshots[target]))
    case None => r == Err(MalformedSnapshot) && skillsAfter == skills
    case Some(restored) =>
      if IsDir(skills, name) then
        r == Ok(target) && skillsAfter == skills[name := SkillDir(Some(restored), skills[name].folders)]
      else
        r == Err(WriteFailed) && skillsAfter == skills
  }
}
