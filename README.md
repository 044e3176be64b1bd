# Skill version ledger

A Dafny model of the file-backed skill store and snapshot ledger of
`skills/skill-builder/scripts/skill-manager.py`.

A skill is a directory under the skills root. It holds a `SKILL.md` document and
the empty folders `scripts/` and `references/`. Every skill also has a version
directory of `<YYYYMMDD_HHMMSS>.md` snapshot files. Each snapshot is the
document as it was, behind a `<!-- VERSION INFO … -->` header that records the
time and a message.

The model follows that code:

- `create_skill`, `save_version`, `update_skill` and `rollback` are methods of
  the class `SkillManager.Manager`.
  - The class holds two maps, `skills` and `versions`.
  - `skills` maps an entry of the skills root to a plain file or to a skill
    directory (its optional `SKILL.md` and its sub-folders).
  - `versions` maps a skill name to its version directory, which maps a file
    name to the file's text. Keying by the name is `get_skill_version_dir`
    (`VERSION_DIR / skill_name`).
  - A skill name missing from `versions` is a skill whose version directory
    does not exist.
  - The maps hold each file's text as written. Every read goes through
    `Strings.UniversalNewlines`, which models `Path.read_text()` in its
    universal-newlines mode: "\r\n" and a lone "\r" both read as "\n".
    `write_text` writes the text unchanged.
- `list_history`, `diff_versions` and `list_skills` are methods that change
  nothing. They have the source's loops: first `message:` line with `break`,
  and the filter over the directory entries.
- `parse_skill_metadata` is a method with a loop (`FrontMatter.ParseSkillMetadata`),
  proved equal to the function `FrontMatter.Metadata`.
- The header wrap and strip are the pure functions `VersionHeader.Wrap` and
  `VersionHeader.Unwrap`, with round-trip lemmas.
- The time comes in as a parameter: a `Timestamps.Timestamp`, formatted as
  `strftime("%Y%m%d_%H%M%S")`.
- Sorting by `Path` is sorting by file name, so Python's `str` order is
  `Ordering.LexLess`. `sorted(..., reverse=True)` is the unique descending
  listing `Ordering.Listing`.
- Python's `strip()`, `split`, `startswith` and `in` are written out in the
  module `Strings`, with Python's set of white-space characters.

In these details the model follows the code:

- The front-matter parser keeps the value of the *last* line that sets a key
  (a dictionary assignment per line), not the first.
- `rollback` strips the restored text of surrounding white space as well as the
  header, and leaves text without `<!-- VERSION INFO` as it is.
- A snapshot that mentions the header but has no `-->` makes `rollback` raise
  an `IndexError` after its auto-save. A skill that is not a directory makes
  the final `write_text` raise. These are `MalformedSnapshot` and `WriteFailed`
  here, and the auto-save stays.
- The messages are the code's literals: "初始创建", "更新前保存", "回滚前自动保存".
- `rollback` picks its target from the listing taken before the auto-save, but
  reads the target's text after it. If the auto-save lands on the target's
  file name (same second), the text restored is the auto-save.
  `Manager.Rollback` states this as written.

## Model

| member | source | states |
|---|---|---|
| `Strings.UniversalNewlinesPlain` | skills/skill-builder/scripts/skill-manager.py:219 | text without a carriage return reads back exactly as written |
| `Strings.UniversalNewlinesFree` | skills/skill-builder/scripts/skill-manager.py:219 | text as read never holds a carriage return |
| `Strings.UniversalNewlinesIdempotent` | skills/skill-builder/scripts/skill-manager.py:219 | reading text that was already read changes nothing |
| `Strings.UniversalNewlinesAfterPlain` | skills/skill-builder/scripts/skill-manager.py:219 | plain text followed by any text reads as itself followed by what the rest reads as |
| `Strings.UniversalNewlinesAppend` | skills/skill-builder/scripts/skill-manager.py:219 | two texts read one after the other read as each read alone, when the first does not end in a carriage return |
| `Strings.UniversalNewlinesEndsNewline` | skills/skill-builder/scripts/skill-manager.py:219 | a line ended by a line feed still ends in one once read |
| `Strings.UniversalNewlinesKeepsFree` | skills/skill-builder/scripts/skill-manager.py:219 | reading creates no occurrence of a pattern without line breaks |
| `Strings.UniversalNewlinesCrLf` | skills/skill-builder/scripts/skill-manager.py:219 | a "\r\n" after plain text reads as one "\n" |
| `Strings.UniversalNewlinesCr` | skills/skill-builder/scripts/skill-manager.py:219 | a "\r" after plain text and not followed by "\n" reads as one "\n" |
| `Strings.StartsWithUniversal` | skills/skill-builder/scripts/skill-manager.py:76-79 | a text as read starts with "---" (or any prefix without line breaks) exactly when the text on disk does |
| `Timestamps.Format` | skills/skill-builder/scripts/skill-manager.py:186 | the time stamp of a valid time is 15 characters, each a digit or `_` |
| `Timestamps.SnapshotName` | skills/skill-builder/scripts/skill-manager.py:187 | the snapshot file name is the 15-character stamp followed by ".md" |
| `Timestamps.LaterSnapshotSortsAfter` | skills/skill-builder/scripts/skill-manager.py:186-187 | a strictly later time gets a file name that is strictly greater as a Python string |
| `Timestamps.SnapshotNameInjective` | skills/skill-builder/scripts/skill-manager.py:186-187 | two saves get the same file name exactly when they happen in the same second |
| `Ordering.SortDescending` | skills/skill-builder/scripts/skill-manager.py:212 | the loop that takes the greatest remaining name yields `sorted(names, reverse=True)`: every name once, strictly descending |
| `Ordering.GreatestListedFirst` | skills/skill-builder/scripts/skill-manager.py:212 | a name greater than all others of the directory is at position 1 of the listing |
| `VersionHeader.Wrap` | skills/skill-builder/scripts/skill-manager.py:193-197 | a snapshot starts with `<!-- VERSION INFO` and ends with the document unchanged |
| `VersionHeader.Unwrap` | skills/skill-builder/scripts/skill-manager.py:261-263 | text without `<!-- VERSION INFO` is restored unchanged; the restore fails exactly when the text mentions the header but holds no `-->` |
| `VersionHeader.WrapAsRead` | skills/skill-builder/scripts/skill-manager.py:193-199 | a wrapped text without a carriage return outside its message reads back unchanged except for the message line |
| `VersionHeader.ReadHeaderPrefixFree` | skills/skill-builder/scripts/skill-manager.py:193-199 | the header as read still starts with the opening marker, ends with a line break and holds no `-->` when neither stamp nor message does |
| `VersionHeader.UnwrapWrapAsRead` | skills/skill-builder/scripts/skill-manager.py:261-263 | restoring a wrapped text as read gives back the document, stripped, when neither stamp nor message holds `-->`, whatever line breaks the message holds |
| `VersionHeader.UnwrapWrap` | skills/skill-builder/scripts/skill-manager.py:262-263 | restoring a text built by the header wrap gives back the document, stripped, when neither stamp nor message holds `-->` |
| `VersionHeader.ExtractMessage` | skills/skill-builder/scripts/skill-manager.py:220-225 | the loop that stops at the first line starting with `message:` returns the stripped text after that line's first colon, or "" without one |
| `VersionHeader.FirstMessageAt` | skills/skill-builder/scripts/skill-manager.py:221-225 | the message is the stripped text after "message:" on the first line that starts with it, whatever later lines hold |
| `VersionHeader.FirstMessageNone` | skills/skill-builder/scripts/skill-manager.py:221-225 | without a line that starts with "message:" the message is "" |
| `VersionHeader.MessageOfWrap` | skills/skill-builder/scripts/skill-manager.py:220-225 | the message line of the wrapped text reads back as the stripped message, when stamp and message are single lines |
| `FrontMatter.Block` | skills/skill-builder/scripts/skill-manager.py:79-81 | there is a block exactly when the text starts with "---" and holds another "---" after it |
| `FrontMatter.BlockShape` | skills/skill-builder/scripts/skill-manager.py:80-82 | the block is the text from index 3 up to the first "---" after the opening marker |
| `FrontMatter.BlockBetween` | skills/skill-builder/scripts/skill-manager.py:80-82 | text free of "---" between two markers is the block found, whatever follows |
| `FrontMatter.ParseField` | skills/skill-builder/scripts/skill-manager.py:84-86 | a line yields a field exactly when it holds a colon |
| `FrontMatter.Metadata` | skills/skill-builder/scripts/skill-manager.py:79-88 | the metadata is empty unless the text starts with "---" and holds a second "---" |
| `FrontMatter.ParseSkillMetadata` | skills/skill-builder/scripts/skill-manager.py:74-88 | the loop over the block's lines builds exactly the metadata of the document |
| `FrontMatter.CollectKeys` | skills/skill-builder/scripts/skill-manager.py:83-86 | a key is present exactly when some line of the block sets it |
| `FrontMatter.CollectLast` | skills/skill-builder/scripts/skill-manager.py:83-86 | a key's value comes from the last line that sets it, so later duplicates override earlier ones |
| `FrontMatter.CollectPair` | skills/skill-builder/scripts/skill-manager.py:83-86 | two lines setting keys give both keys, the second winning when they are equal |
| `SkillTemplate.TemplateBlock` | skills/skill-builder/scripts/skill-manager.py:131-134 | the block the parser finds in a new `SKILL.md` is its name and description lines |
| `SkillTemplate.FrontBlockFields` | skills/skill-builder/scripts/skill-manager.py:132-133 | the front matter parses to exactly the keys "name" and "description", with the stripped name and description |
| `SkillTemplate.NameLine` | skills/skill-builder/scripts/skill-manager.py:132 | the `name:` line reads back as the stripped name |
| `SkillTemplate.DescriptionLine` | skills/skill-builder/scripts/skill-manager.py:133 | the `description:` line, once the block is stripped, reads back as the stripped description |
| `SkillTemplate.FrontMatterMetadata` | skills/skill-builder/scripts/skill-manager.py:79-86 | front matter of a name line and a description line parses to exactly those two fields, stripped, whatever follows the closing "---" |
| `SkillTemplate.TemplateMetadata` | skills/skill-builder/scripts/skill-manager.py:131-134 | the parser, given the template text, returns exactly its name and its description or placeholder, stripped, when neither spans lines or holds "---" |
| `SkillTemplate.TemplateLines` | skills/skill-builder/scripts/skill-manager.py:131-157 | split into lines, the template is "---", the `name:` line, the `description:` line with the placeholder for an empty description, "---", an empty line, the `# name` title, the twenty lines of fixed sections, and the empty text after the final line break |
| `SkillTemplate.TemplateAsRead` | skills/skill-builder/scripts/skill-manager.py:131-159 | the template reads back with its front matter unchanged when name and description hold no carriage return |
| `SkillManager.History` | skills/skill-builder/scripts/skill-manager.py:212 | the history lists each snapshot file of the skill exactly once |
| `SkillManager.AfterSave` | skills/skill-builder/scripts/skill-manager.py:177-199 | without a `SKILL.md` nothing changes. Otherwise the snapshot of that second holds the document as `read_text` returns it, behind its header, replacing one of the same second. No other snapshot and no other skill changes, and no file is lost |
| `SkillManager.FreshSaveAddsOne` | skills/skill-builder/scripts/skill-manager.py:186-199 | a save in a second with no snapshot yet grows the history by exactly one |
| `SkillManager.SnapshotAsRead` | skills/skill-builder/scripts/skill-manager.py:193-199 | a snapshot whose message holds no carriage return reads back exactly as it was written |
| `SkillManager.SnapshotRestores` | skills/skill-builder/scripts/skill-manager.py:261-263 | reading and restoring a snapshot written by a save gives the saved document as it was read, stripped, when the message holds no `-->`, whatever line breaks it holds |
| `SkillManager.SnapshotMessage` | skills/skill-builder/scripts/skill-manager.py:219-225 | the history shows a saved snapshot's message, stripped, when the message is one line without a carriage return |
| `SkillManager.NewestListedFirst` | skills/skill-builder/scripts/skill-manager.py:212 | a snapshot later than all existing ones is listed first, so index 1 is the newest |
| `SkillManager.ReadSkillInfo` | skills/skill-builder/scripts/skill-manager.py:52-57 | the entry built from `SKILL.md`, as read and parsed, is the one `Describe` gives: the front-matter name or else the directory name, the description or else "无描述" |
| `SkillManager.DescribeWithoutFrontMatter` | skills/skill-builder/scripts/skill-manager.py:55-56 | a document that does not start with "---" is shown under its directory name with "无描述" |
| `SkillManager.CreatedSkillDescribed` | skills/skill-builder/scripts/skill-manager.py:131-133 | the listing shows a newly created skill with the name and description it was created with, stripped, when neither spans lines, holds a carriage return or holds "---" |
| `SkillManager.PlaceholderDescription` | skills/skill-builder/scripts/skill-manager.py:133 | a skill created without a description, whose name is one line without a carriage return and holds no "---", is listed with "待补充描述", not "无描述" |
| `SkillManager.Manager.constructor` | skills/skill-builder/scripts/skill-manager.py:24-25 | the two roots start as the given skill entries and version directories |
| `SkillManager.Manager.SaveVersion` | skills/skill-builder/scripts/skill-manager.py:170-201 | fails with no change when the skill has no `SKILL.md`. Otherwise the version directory becomes `AfterSave` and the document is untouched |
| `SkillManager.Manager.CreateSkill` | skills/skill-builder/scripts/skill-manager.py:117-167 | fails with no change if the entry exists, or the name is "" or "." (pathlib turns both into the existing root). Otherwise the skill holds the template and both folders, and one snapshot "初始创建" of the template, as read, is stored |
| `SkillManager.Manager.UpdateSkill` | skills/skill-builder/scripts/skill-manager.py:296-307 | fails with no change without `SKILL.md`; otherwise saves with the given message or "更新前保存" |
| `SkillManager.Manager.ListHistory` | skills/skill-builder/scripts/skill-manager.py:204-225 | fails without a version directory. Otherwise it lists every snapshot from the greatest file name down, each with the message of the file as read |
| `SkillManager.Manager.DiffVersions` | skills/skill-builder/scripts/skill-manager.py:272-287 | fails without history or when either index is outside 1..count; otherwise selects the files at positions v1 and v2 of the history |
| `SkillManager.Manager.Rollback` | skills/skill-builder/scripts/skill-manager.py:241-267 | see the detail below the table; the text written back is computed by its helper `RestoreText` |
| `SkillManager.Manager.ListSkills` | skills/skill-builder/scripts/skill-manager.py:43-57 | lists each directory once, exactly when its name does not start with "." and it holds `SKILL.md`, with the entry `Describe` gives |

`SkillManager.Manager.Rollback` states:

- Without history it fails and nothing changes.
- When the index is outside 1..count it fails, nothing changes and no
  auto-save is written.
- Otherwise it first auto-saves with "回滚前自动保存".
- It then reads the file chosen from the listing taken before that save.
- A snapshot that mentions the header but has no `-->` fails.
- A skill that is not a directory fails.
- Otherwise `SKILL.md` becomes the restored text: the snapshot as read,
  with everything up to the first `-->` cut and the rest stripped when it
  mentions the header (`Unwrap` of the text as read).

## Left out

- Printing, emoji and the text of every message the tool prints.
  - The operations return a `Result` instead.
  - `list_history` does not re-format the time with `strptime`/`strftime`.
- `show_skill`, the version counts of `list_skills -v`, and `main` with its
  argument parsing.
- The diff itself: `diff_versions` runs `diff -u … | head -50` through
  `os.system`. Only the index checks and the choice of the two files are
  modelled.
- `datetime.now()` is a parameter.
  - Its year is kept to four digits, so `%Y` prints four characters.
  - The clock is not assumed to move forward between calls.
- The fixed roots under the home directory, and `ensure_version_dir`.
  - Both roots are taken as existing.
  - A missing skills root lists nothing, as an empty one does.
- Skill names that contain "/" or "..", which would reach outside the roots.
- The names "" and "." outside `create_skill`. pathlib turns both into the
  root itself, so `save_version("")` reads `SKILL.md` at the skills root and
  `list_history("")` lists the version root. The model treats them as
  ordinary names there. `Manager.CreateSkill` does model them: it reports
  that the skill exists.
- The default arguments of the source's functions and command line:
  `version_index=1`, `v1=1`, `v2=2`, `message=""` and `description=""`.
  Callers pass every argument explicitly.
- The decoding of bytes into text. Files are sequences of characters here.
  A platform whose `write_text` turns "\n" into "\r\n" is not modelled.
- SkillManager.SnapshotMessage: holds only for messages without a carriage return. A "\r"
  in a message is written as is and reads back as a line break, so the
  history shows the text before it. `Manager.ListHistory` models that case.
- SkillManager.CreatedSkillDescribed: holds only for names and descriptions without a
  carriage return. With one, the front matter reads back split over more
  lines. `Manager.ListSkills` models that case.
- SkillManager.PlaceholderDescription: holds only for names on one line, without a
  carriage return and without "---". A "---" in the name cuts the front
  matter short, so `create_skill("x---y")` is listed with "无描述"; line
  breaks in the name are not followed through the parser. `Manager.ListSkills`
  models those cases.
- A plain file where a version directory should be.
- `SKILL.md` being a directory.
- Read and write failures of the operating system, other than the two
  `rollback` failures above.
- The order of `iterdir()`.
  - `list_skills` is stated up to order: each listed skill once.
  - Listings of version directories are sorted, as the source sorts them.
- Concurrent callers. Each method is one uninterrupted step.
- `Manager.ListSkills` models the `skills` list that `list_skills` builds, not
  the numbered lines it prints from it.
