/** The `SKILL.md` document `create_skill` writes for a new skill, and what
    `parse_skill_metadata` reads back from it. */
module SkillTemplate {
  import opened Strings
  import opened FrontMatter

  const DefaultDescription := "待补充描述"

  /** `description or '待补充描述'`: an empty description falls back to the placeholder. */
  function DescriptionOrDefault(description: string): (r: string)
    ensures r != []
  {
    if description == "" then DefaultDescription else description
  }

  /** The placeholder has no white space at its ends, so `strip()` keeps it. */
  lemma PlaceholderStripped()
    ensures Strip(DefaultDescription) == DefaultDescription
  {
    var d := DefaultDescription;
    assert !IsSpace(d[0]) && !IsSpace(d[|d| - 1]);
    assert LStrip(d) == d;
    assert RStrip(d) == d;
  }

  /** The front-matter block of the template, between its two "---" markers. */
  function FrontBlock(name: string, description: string): string {
    "\nname: " + name + "\ndescription: " + DescriptionOrDefault(description) + "\n"
  }

  /** The lines of the skeleton after the title: the empty sections a new
      skill is to fill in. */
  const Sections: seq<string> := [
      "",
      "## 触发场景",
      "- 用户说\"...\"",
      "",
      "## 执行步骤",
      "1. 步骤1",
      "2. 步骤2",
      "",
      "## 边界条件",
      "- 触发条件：...",
      "- 不触发条件：...",
      "",
      "## 踩坑清单",
      "| 坑 | 表现 | 应对 |",
      "|----|------|------|",
      "| - | - | - |",
      "",
      "## 约束条件",
      "- 必须：...",
      "- 禁止：..."
    ]

  /** The skeleton that follows the front matter: a title and the empty sections. */
  function Body(name: string): string {
    "\n\n# " + name + "\n" + Join(Sections, '\n') + "\n"
  }

  /** The new skill's `SKILL.md`. */
  function Template(name: string, description: string): string {
    Delimiter + FrontBlock(name, description) + Delimiter + Body(name)
  }

  /** The front-matter block holds no "---" when neither the name nor the description does. */
  lemma FrontBlockFree(name: string, description: string)
    requires Free(name, Delimiter) && Free(description, Delimiter)
    ensures Free(FrontBlock(name, description), Delimiter)
  {
    var d := DescriptionOrDefault(description);
    if description == [] {
      FreeOfMissing(DefaultDescription, Delimiter, 0);
    }
    var a, b := "\nname: ", "\ndescription: ";
    FreeOfMissing(a, Delimiter, 0);
    FreeOfMissing(b, Delimiter, 0);
    FreeOfMissing("\n", Delimiter, 0);
    FreeConcat(a, name, Delimiter);
    FreeConcat(a + name, b, Delimiter);
    FreeConcat(a + name + b, d, Delimiter);
    FreeConcat(a + name + b + d, "\n", Delimiter);
  }

  /** The block `parse_skill_metadata` finds in the template is its front matter. */
  lemma TemplateBlock(name: string, description: string)
    requires Free(name, Delimiter) && Free(description, Delimiter)
    ensures Block(Template(name, description)) == Some(FrontBlock(name, description))
  {
    FrontBlockFree(name, description);
    BlockBetween(FrontBlock(name, description), Body(name));
  }

  /** The stripped front matter: the name line, then the description line
      without its trailing white space. */
  lemma StripFrontBlock(name: string, description: string)
    ensures Strip(FrontBlock(name, description))
         == "name: " + name + "\n" + ("description:" + RStrip(" " + DescriptionOrDefault(description)))
  {
    var d := DescriptionOrDefault(description);
    var x := "name: " + name + "\ndescription:";
    assert FrontBlock(name, description) == "\n" + (x + (" " + d + "\n"));
    assert x[0] == 'n' && x[|x| - 1] == ':';
    StripBetweenBreaks(x, d);
    assert x + RStrip(" " + d) == "name: " + name + "\n" + ("description:" + RStrip(" " + d));
  }

  /** A line `key: value` whose key holds no colon and no white space at its ends. */
  lemma ParseKeyLine(key: string, rest: string, line: string)
    requires line == key + ":" + rest
    requires ':' !in key && Strip(key) == key
    ensures ParseField(line) == Some(Field(key, Strip(rest)))
  {
    assert line[|key|] == ':' && line[..|key|] == key && line[|key| + 1..] == rest;
    IndexOfAt(line, ':', |key|);
  }

  /** The stripped front matter, line by line. */
  lemma FrontBlockLines(name: string, description: string)
    requires '\n' !in name && '\n' !in description
    ensures Split(Strip(FrontBlock(name, description)), '\n')
         == ["name: " + name, "description:" + RStrip(" " + DescriptionOrDefault(description))]
  {
    var d := DescriptionOrDefault(description);
    StripFrontBlock(name, description);
    RStripKeeps(" " + d, '\n');
    SplitAfter("name: " + name, '\n', "description:" + RStrip(" " + d));
  }

  /** The two keys of the front matter have no white space at their ends. */
  lemma KeysStripped()
    ensures Strip("name") == "name" && Strip("description") == "description"
  {
    assert Strip("name") == "name";
    assert Strip("description") == "description";
  }

  /** The name line reads back as the stripped name. */
  lemma NameLine(name: string)
    ensures ParseField("name: " + name) == Some(Field("name", Strip(name)))
  {
    assert "name: " + name == "name:" + (" " + name);
    KeysStripped();
    ParseKeyLine("name", " " + name, "name:" + (" " + name));
    StripAfterSpace(name);
  }

  /** The description line, its trailing white space stripped, reads back as the
      stripped description. */
  lemma DescriptionLine(d: string)
    ensures ParseField("description:" + RStrip(" " + d)) == Some(Field("description", Strip(d)))
  {
    DescriptionKey(RStrip(" " + d));
    StripAfterSpace(d);
  }

  /** Any line that starts with "description:" reads back under that key; kept
      apart from `DescriptionLine` so that its proof does not see the
      stripped text. */
  lemma DescriptionKey(rest: string)
    ensures ParseField("description:" + rest) == Some(Field("description", Strip(rest)))
  {
    KeysStripped();
    ParseKeyLine("description", rest, "description:" + rest);
  }

  /** The fields of the front matter: the name line and the description line. */
  lemma FrontBlockFields(name: string, description: string)
    requires '\n' !in name && '\n' !in description
    ensures Collect(ParseFields(Split(Strip(FrontBlock(name, description)), '\n')))
         == map["name" := Strip(name), "description" := Strip(DescriptionOrDefault(description))]
  {
    var d := DescriptionOrDefault(description);
    var lines := ["name: " + name, "description:" + RStrip(" " + d)];
    FrontBlockLines(name, description);
    NameLine(name);
    DescriptionLine(d);
    CollectPair(lines, "name", Strip(name), "description", Strip(d));
  }

  /** Front matter of a name line and a description line parses to those two
      fields, stripped, whatever text follows the closing marker. */
  lemma FrontMatterMetadata(name: string, description: string, rest: string)
    requires '\n' !in name && '\n' !in description
    requires Free(name, Delimiter) && Free(description, Delimiter)
    ensures Metadata(Delimiter + FrontBlock(name, description) + Delimiter + rest)
         == map["name" := Strip(name), "description" := Strip(DescriptionOrDefault(description))]
  {
    FrontBlockFree(name, description);
    BlockBetween(FrontBlock(name, description), rest);
    FrontBlockFields(name, description);
  }

  /** What `parse_skill_metadata` reads back from the template: the name and
      the description (or its placeholder) it was made with, stripped, as long
      as neither spans several lines or holds "---". */
  lemma TemplateMetadata(name: string, description: string)
    requires '\n' !in name && '\n' !in description
    requires Free(name, Delimiter) && Free(description, Delimiter)
    ensures Metadata(Template(name, description))
         == map["name" := Strip(name), "description" := Strip(DescriptionOrDefault(description))]
  {
    FrontMatterMetadata(name, description, Body(name));
  }

  /** No line of the sections holds a line break. */
  lemma SectionsAreLines()
    ensures forall i :: 0 <= i < |Sections| ==> '\n' !in Sections[i]
  {
  }

  /** The lines of a template with the given description and sections. */
  function LayoutLines(name: string, d: string, sections: seq<string>): seq<string> {
    ["---", "name: " + name, "description: " + d, "---", "", "# " + name] + sections + [""]
  }

  /** The template's text, for the given description and sections. */
  function Layout(name: string, d: string, sections: seq<string>): string
    requires sections != []
  {
    "---" + "\n" + ("name: " + name + "\n" + ("description: " + d + "\n" + ("---" + "\n"
    + ("\n" + ("# " + name + "\n" + (Join(sections, '\n') + "\n"))))))
  }

  /** The lines from the title on: the title, the sections and the final empty text. */
  lemma JoinTitle(name: string, sections: seq<string>)
    requires sections != []
    ensures Join(["# " + name] + (sections + [""]), '\n') == "# " + name + "\n" + (Join(sections, '\n') + "\n")
  {
    JoinSnoc(sections, "", '\n');
    JoinCons("# " + name, sections + [""], '\n');
  }

  lemma JoinLayout(name: string, d: string, sections: seq<string>)
    requires sections != []
    ensures Join(LayoutLines(name, d, sections), '\n') == Layout(name, d, sections)
  {
    var t6 := ["# " + name] + (sections + [""]);
    JoinTitle(name, sections);
    var t5 := [""] + t6;
    JoinCons("", t6, '\n');
    var t4 := ["---"] + t5;
    JoinCons("---", t5, '\n');
    var t3 := ["description: " + d] + t4;
    JoinCons("description: " + d, t4, '\n');
    var t2 := ["name: " + name] + t3;
    JoinCons("name: " + name, t3, '\n');
    JoinCons("---", t2, '\n');
    assert LayoutLines(name, d, sections) == ["---"] + t2;
  }

  lemma SplitLayout(name: string, d: string, sections: seq<string>)
    requires sections != [] && '\n' !in name && '\n' !in d
    requires forall i :: 0 <= i < |sections| ==> '\n' !in sections[i]
    ensures Split(Layout(name, d, sections), '\n') == LayoutLines(name, d, sections)
  {
    var lines := LayoutLines(name, d, sections);
    JoinLayout(name, d, sections);
    forall i | 0 <= i < |lines| ensures '\n' !in lines[i] {
      if 6 <= i < 6 + |sections| {
        assert lines[i] == sections[i - 6];
      }
    }
    SplitJoin(lines, '\n');
  }

  /** The template's text regrouped line by line, for any text of the sections. */
  lemma TemplateRegrouped(name: string, d: string, body: string)
    ensures Delimiter + ("\nname: " + name + "\ndescription: " + d + "\n") + Delimiter
            + ("\n\n# " + name + "\n" + body + "\n")
         == "---" + "\n" + ("name: " + name + "\n" + ("description: " + d + "\n" + ("---" + "\n"
            + ("\n" + ("# " + name + "\n" + (body + "\n"))))))
  {
  }

  /** The template line by line: the front matter between its markers, an
      empty line, the title, the sections, and the empty text after the last
      line break. */
  lemma TemplateLines(name: string, description: string)
    requires '\n' !in name && '\n' !in description
    ensures Split(Template(name, description), '\n')
         == ["---", "name: " + name, "description: " + DescriptionOrDefault(description), "---", "", "# " + name]
            + Sections + [""]
  {
    var d := DescriptionOrDefault(description);
    SectionsAreLines();
    SplitLayout(name, d, Sections);
    TemplateRegrouped(name, d, Join(Sections, '\n'));
  }

  /** The template as `read_text` returns it: when neither the name nor the
      description holds a carriage return, the front matter reads back as written. */
  lemma TemplateAsRead(name: string, description: string)
    requires '\r' !in name && '\r' !in description
    ensures UniversalNewlines(Template(name, description))
         == Delimiter + FrontBlock(name, description) + Delimiter + UniversalNewlines(Body(name))
  {
    var front := Delimiter + FrontBlock(name, description) + Delimiter;
    assert '\r' !in DescriptionOrDefault(description);
    assert '\r' !in front;
    UniversalNewlinesAfterPlain(front, Body(name));
  }
}
