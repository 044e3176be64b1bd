/** `parse_skill_metadata`: the key/value lines of the block that a skill
    document opens with between two "---" markers. */
module FrontMatter {
  import opened Strings

  const Delimiter := "---"

  datatype Field = Field(key: string, value: string)

  /** One line of the block: `key, value = line.split(":", 1)`, both stripped;
      None for a line without a colon, which the parser skips. */
  function ParseField(line: string): (r: Option<Field>)
    ensures r.Some? <==> ':' in line
  {
    if ':' in line then
      var i := IndexOf(line, ':');
      Some(Field(Strip(line[..i]), Strip(line[i + 1..])))
    else
      None
  }

  /** Every line of the block, parsed. */
  function ParseFields(lines: seq<string>): (fields: seq<Option<Field>>)
    ensures |fields| == |lines|
    ensures forall i :: 0 <= i < |lines| ==> fields[i] == ParseField(lines[i])
  {
    seq(|lines|, i requires 0 <= i < |lines| => ParseField(lines[i]))
  }

  /** The field sets the key `k`. */
  predicate Defines(f: Option<Field>, k: string) {
    f.Some? && f.value.key == k
  }

  /** The text between the opening "---" and the next one, as
      `content.split("---", 2)[1]`; None unless the content starts with "---"
      and holds a second "---" after it. */
  function Block(content: string): (r: Option<string>)
    ensures r.None? <==> !StartsWith(content, Delimiter) || !Contains(content[|Delimiter|..], Delimiter)
  {
    if StartsWith(content, Delimiter) then
      var rest := content[3..];
      match Find(rest, Delimiter)
      case None => None
      case Some(j) => Some(rest[..j])
    else
      None
  }

  /** The block is the text right after the opening marker, up to the first
      "---" that follows it. */
  lemma BlockShape(content: string)
    requires Block(content).Some?
    ensures var b := Block(content).value;
      && 3 + |b| <= |content| && content[3..3 + |b|] == b
      && OccursAt(content, Delimiter, 3 + |b|)
      && forall k: nat :: 3 <= k < 3 + |b| ==> !OccursAt(content, Delimiter, k)
  {
    var rest := content[3..];
    var j := Find(rest, Delimiter).value;
    assert content[3 + j..3 + j + 3] == rest[j..j + 3];
    forall k: nat | 3 <= k < 3 + j ensures !OccursAt(content, Delimiter, k) {
      if k + 3 <= |content| {
        assert content[k..k + 3] == rest[k - 3..k];
        assert !OccursAt(rest, Delimiter, k - 3);
      }
    }
  }

  /** A block free of "---" between two markers is the block the parser finds,
      whatever follows the closing marker. */
  lemma BlockBetween(block: string, rest: string)
    requires Free(block, Delimiter) && block != [] && block[|block| - 1] !in Delimiter
    ensures Block(Delimiter + block + Delimiter + rest) == Some(block)
  {
    var s := Delimiter + block + Delimiter + rest;
    assert s[3..] == block + Delimiter + rest;
    FindAfterFree(block, Delimiter, rest);
    assert s[3..][..|block|] == block;
  }

  /** The dictionary the loop builds from the parsed lines of the block: each
      line with a colon sets its key, so a later line overrides an earlier one. */
  function Collect(fields: seq<Option<Field>>): map<string, string>
    decreases |fields|
  {
    if fields == [] then map[]
    else
      var m := Collect(fields[..|fields| - 1]);
      match fields[|fields| - 1]
      case None => m
      case Some(f) => m[f.key := f.value]
  }

  /** The metadata of a skill document. */
  function Metadata(content: string): (r: map<string, string>)
    ensures !StartsWith(content, Delimiter) || !Contains(content[|Delimiter|..], Delimiter) ==> r == map[]
  {
    match Block(content)
    case None => map[]
    case Some(block) => Collect(ParseFields(Split(Strip(block), '\n')))
  }

  /** `parse_skill_metadata` */
  method ParseSkillMetadata(content: string) returns (metadata: map<string, string>)
    ensures metadata == Metadata(content)
  {
    metadata := map[];
    var block := Block(content);
    if block.Some? {
      var lines := Split(Strip(block.value), '\n');
      ghost var fields := ParseFields(lines);
      var i := 0;
      while i < |lines|
        invariant 0 <= i <= |lines|
        invariant metadata == Collect(fields[..i])
      {
        var line := lines[i];
        assert fields[..i + 1][..i] == fields[..i] && fields[i] == ParseField(line);
        if ':' in line {
          var colon := IndexOf(line, ':');
          var key, value := Strip(line[..colon]), Strip(line[colon + 1..]);
          assert ParseField(line) == Some(Field(key, value));
          metadata := metadata[key := value];
        }
        i := i + 1;
      }
      assert fields[..|lines|] == fields;
    }
  }

  /** Two lines that both set a key: the second wins if the keys are equal. */
  lemma CollectPair(lines: seq<string>, k1: string, v1: string, k2: string, v2: string)
    requires |lines| == 2
    requires ParseField(lines[0]) == Some(Field(k1, v1)) && ParseField(lines[1]) == Some(Field(k2, v2))
    ensures Collect(ParseFields(lines)) == map[k1 := v1][k2 := v2]
  {
    var fields := ParseFields(lines);
    var first := fields[..1];
    assert first[..0] == [] && first[0] == Some(Field(k1, v1));
    assert Collect(first) == map[k1 := v1];
    assert fields[..|fields| - 1] == first && fields[|fields| - 1] == Some(Field(k2, v2));
  }

  /** A key is present exactly when some line of the block sets it. */
  lemma {:induction false} CollectKeys(fields: seq<Option<Field>>, k: string)
    ensures k in Collect(fields) <==> exists i :: 0 <= i < |fields| && Defines(fields[i], k)
    decreases |fields|
  {
    if fields != [] {
      var init := fields[..|fields| - 1];
      CollectKeys(init, k);
      if exists i :: 0 <= i < |init| && Defines(init[i], k) {
        var i :| 0 <= i < |init| && Defines(init[i], k);
        assert fields[i] == init[i];
      }
      if exists i :: 0 <= i < |fields| && Defines(fields[i], k) {
        var i :| 0 <= i < |fields| && Defines(fields[i], k);
        if i < |init| { assert init[i] == fields[i]; }
      }
    }
  }

  /** A key's value comes from the last line that sets it: later duplicates override earlier ones. */
  lemma {:induction false} CollectLast(fields: seq<Option<Field>>, i: nat, k: string)
    requires i < |fields| && Defines(fields[i], k)
    requires forall j :: i < j < |fields| ==> !Defines(fields[j], k)
    ensures k in Collect(fields) && Collect(fields)[k] == fields[i].value.value
    decreases |fields|
  {
    var init := fields[..|fields| - 1];
    if i < |fields| - 1 {
      forall j | i < j < |init| ensures !Defines(init[j], k) {
        assert init[j] == fields[j];
      }
      assert init[i] == fields[i];
      CollectLast(init, i, k);
    }
  }
}
