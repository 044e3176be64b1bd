/** The header that every snapshot file starts with, and the two ways the
    ledger reads it back: restoring the document (header stripped) and listing
    the snapshot's message. */
module VersionHeader {
  import opened Strings

  const Opening := "<!-- VERSION INFO"
  const Closing := "-->"
  const MessageKey := "message:"

  /** The text `save_version` writes: the header, then the document as it was. */
  function Wrap(timestamp: string, message: string, document: string): (s: string)
    ensures StartsWith(s, Opening)
    ensures |document| <= |s| && s[|s| - |document|..] == document
  {
    Opening + "\ntimestamp: " + timestamp + "\nmessage: " + message + "\n" + Closing + "\n" + document
  }

  /** The document `rollback` writes back from a snapshot: everything after the
      first "-->", stripped, when the snapshot mentions the header; the snapshot
      unchanged when it does not. None when it mentions the header but has no
      "-->" anywhere (the source fails with an IndexError there). */
  function Unwrap(snapshot: string): (r: Option<string>)
    ensures !Contains(snapshot, Opening) ==> r == Some(snapshot)
    ensures r.None? <==> Contains(snapshot, Opening) && !Contains(snapshot, Closing)
  {
    if Contains(snapshot, Opening) then
      match SplitOnce(snapshot, Closing)
      case None => None
      case Some((_, after)) => Some(Strip(after))
    else
      Some(snapshot)
  }

  /** The message the history listing shows for one snapshot: the text after
      the first colon of the first line that starts with "message:", stripped. */
  function FirstMessage(lines: seq<string>): string {
    if lines == [] then ""
    else if StartsWith(lines[0], MessageKey) then Strip(lines[0][|MessageKey|..])
    else FirstMessage(lines[1..])
  }

  function MessageOf(snapshot: string): string {
    if Contains(snapshot, MessageKey) then FirstMessage(Split(snapshot, '\n')) else ""
  }

  /** The message is taken from the first line that starts with "message:",
      whatever the lines after it hold. */
  lemma {:induction false} FirstMessageAt(lines: seq<string>, k: nat)
    requires k < |lines| && StartsWith(lines[k], MessageKey)
    requires forall j :: 0 <= j < k ==> !StartsWith(lines[j], MessageKey)
    ensures FirstMessage(lines) == Strip(lines[k][|MessageKey|..])
    decreases k
  {
    if k > 0 {
      forall j | 0 <= j < k - 1 ensures !StartsWith(lines[1..][j], MessageKey) {
        assert lines[1..][j] == lines[j + 1];
      }
      FirstMessageAt(lines[1..], k - 1);
    }
  }

  /** Without a line that starts with "message:" the message is empty. */
  lemma {:induction false} FirstMessageNone(lines: seq<string>)
    requires forall j :: 0 <= j < |lines| ==> !StartsWith(lines[j], MessageKey)
    ensures FirstMessage(lines) == ""
    decreases |lines|
  {
    if lines != [] {
      forall j | 0 <= j < |lines| - 1 ensures !StartsWith(lines[1..][j], MessageKey) {
        assert lines[1..][j] == lines[j + 1];
      }
      FirstMessageNone(lines[1..]);
    }
  }

  /** The loop of `list_history` that looks for the message line and stops at the first one. */
  method ExtractMessage(content: string) returns (message: string)
    ensures message == MessageOf(content)
  {
    message := "";
    if Contains(content, MessageKey) {
      var lines := Split(content, '\n');
      var i := 0;
      while i < |lines|
        invariant 0 <= i <= |lines|
        invariant message == ""
        invariant FirstMessage(lines[i..]) == FirstMessage(lines)
      {
        if StartsWith(lines[i], MessageKey) {
          // the line starts with "message:", so its first colon is the one at index 7
          message := Strip(lines[i][|MessageKey|..]);
          break;
        }
        assert lines[i..][1..] == lines[i + 1..];
        i := i + 1;
      }
    }
  }

  /** The text of a snapshot before its closing marker. */
  function HeaderPrefix(timestamp: string, message: string): string {
    Opening + "\ntimestamp: " + timestamp + "\nmessage: " + message + "\n"
  }

  lemma WrapSplit(timestamp: string, message: string, document: string)
    ensures Wrap(timestamp, message, document) == HeaderPrefix(timestamp, message) + Closing + ("\n" + document)
  {
  }

  /** The header prefix holds no "-->" when neither the time nor the message does. */
  lemma HeaderPrefixFree(timestamp: string, message: string)
    requires Free(timestamp, Closing) && Free(message, Closing)
    ensures Free(HeaderPrefix(timestamp, message), Closing)
  {
    var a := Opening + "\ntimestamp: ";
    var b := "\nmessage: ";
    FreeOfMissing(a, Closing, 2);
    FreeOfMissing(b, Closing, 2);
    FreeOfMissing("\n", Closing, 2);
    FreeConcat(a, timestamp, Closing);
    FreeConcat(a + timestamp, b, Closing);
    FreeConcat(a + timestamp + b, message, Closing);
    FreeConcat(a + timestamp + b + message, "\n", Closing);
  }

  /** A text made of a header without "-->", the closing marker and a line
      break unwraps to the rest, stripped. */
  lemma UnwrapAfterPrefix(prefix: string, document: string)
    requires StartsWith(prefix, Opening) && Free(prefix, Closing)
    requires prefix[|prefix| - 1] == '\n'
    ensures Unwrap(prefix + Closing + ("\n" + document)) == Some(Strip(document))
  {
    var s := prefix + Closing + ("\n" + document);
    assert OccursAt(s, Opening, 0) by { assert s[..|Opening|] == prefix[..|Opening|]; }
    FindAfterFree(prefix, Closing, "\n" + document);
    assert SplitOnce(s, Closing) == Some((prefix, "\n" + document));
    StripPadded("\n", document, []);
    assert "\n" + document + [] == "\n" + document;
  }

  /** Restoring a snapshot made by `save_version` gives back the saved document,
      stripped of leading and trailing white space. */
  lemma UnwrapWrap(timestamp: string, message: string, document: string)
    requires Free(timestamp, Closing) && Free(message, Closing)
    ensures Unwrap(Wrap(timestamp, message, document)) == Some(Strip(document))
  {
    var prefix := HeaderPrefix(timestamp, message);
    WrapSplit(timestamp, message, document);
    HeaderPrefixFree(timestamp, message);
    assert prefix[..|Opening|] == Opening;
    UnwrapAfterPrefix(prefix, document);
  }

  /** The header of a snapshot as `read_text` returns it: only the message line
      can change, since the message is the only part that may hold a "\r". */
  function ReadHeaderPrefix(timestamp: string, message: string): string {
    Opening + "\ntimestamp: " + timestamp + "\nmessage: " + UniversalNewlines(message + "\n")
  }

  lemma WrapAsRead(timestamp: string, message: string, document: string)
    requires '\r' !in timestamp && '\r' !in document
    ensures UniversalNewlines(Wrap(timestamp, message, document))
         == ReadHeaderPrefix(timestamp, message) + Closing + ("\n" + document)
  {
    var a := Opening + "\ntimestamp: " + timestamp + "\nmessage: ";
    var r := Closing + ("\n" + document);
    assert '\r' !in r by { assert r == Closing + "\n" + document; }
    calc {
      UniversalNewlines(Wrap(timestamp, message, document));
      { assert Wrap(timestamp, message, document) == a + ((message + "\n") + r); }
      UniversalNewlines(a + ((message + "\n") + r));
      { assert '\r' !in a; UniversalNewlinesAfterPlain(a, (message + "\n") + r); }
      a + UniversalNewlines((message + "\n") + r);
      { UniversalNewlinesAppend(message + "\n", r); UniversalNewlinesPlain(r); }
      a + (UniversalNewlines(message + "\n") + r);
    }
  }

  lemma ReadHeaderPrefixFree(timestamp: string, message: string)
    requires Free(timestamp, Closing) && Free(message, Closing)
    ensures StartsWith(ReadHeaderPrefix(timestamp, message), Opening)
    ensures Free(ReadHeaderPrefix(timestamp, message), Closing)
    ensures var p := ReadHeaderPrefix(timestamp, message); p[|p| - 1] == '\n'
  {
    var a := Opening + "\ntimestamp: ";
    var b := "\nmessage: ";
    var x := UniversalNewlines(message + "\n");
    FreeOfMissing(a, Closing, 2);
    FreeOfMissing(b, Closing, 2);
    FreeOfMissing("\n", Closing, 2);
    FreeConcat(a, timestamp, Closing);
    FreeConcat(a + timestamp, b, Closing);
    FreeConcat(message, "\n", Closing);
    UniversalNewlinesKeepsFree(message + "\n", Closing);
    UniversalNewlinesEndsNewline(message);
    FreeConcat(a + timestamp + b, x, Closing);
    var p := a + timestamp + b + x;
    assert p[..|Opening|] == Opening;
  }

  /** Restoring a snapshot made by `save_version` and read back with universal
      newlines gives back the saved document, stripped, whatever line breaks
      the message holds. */
  lemma UnwrapWrapAsRead(timestamp: string, message: string, document: string)
    requires Free(timestamp, Closing) && Free(message, Closing)
    requires '\r' !in timestamp && '\r' !in document
    ensures Unwrap(UniversalNewlines(Wrap(timestamp, message, document))) == Some(Strip(document))
  {
    WrapAsRead(timestamp, message, document);
    ReadHeaderPrefixFree(timestamp, message);
    UnwrapAfterPrefix(ReadHeaderPrefix(timestamp, message), document);
  }

  /** A snapshot made by `save_version`, as its first three lines and the rest. */
  lemma WrapAsLines(timestamp: string, message: string, document: string)
    ensures Wrap(timestamp, message, document)
         == Opening + "\n" + ("timestamp: " + timestamp + "\n" + ("message: " + message + "\n" + (Closing + "\n" + document)))
  {
  }

  /** A snapshot made by `save_version`, line by line: the opening marker, the
      time, the message, and then the closing marker followed by the document. */
  lemma WrapLines(timestamp: string, message: string, document: string)
    requires '\n' !in timestamp && '\n' !in message
    ensures Split(Wrap(timestamp, message, document), '\n')
         == [Opening] + (["timestamp: " + timestamp] + (["message: " + message] + Split(Closing + "\n" + document, '\n')))
  {
    WrapAsLines(timestamp, message, document);
    SplitThreeLines(Opening, "timestamp: " + timestamp, "message: " + message, Closing + "\n" + document);
  }

  /** Every snapshot made by `save_version` mentions "message:". */
  lemma WrapHasMessageKey(timestamp: string, message: string, document: string)
    ensures Contains(Wrap(timestamp, message, document), MessageKey)
  {
    var s := Wrap(timestamp, message, document);
    var k := |Opening| + |"timestamp: " + timestamp| + 2;
    WrapAsLines(timestamp, message, document);
    assert s[k..k + |MessageKey|] == MessageKey;
    assert OccursAt(s, MessageKey, k);
  }

  /** The message comes from the first line that starts with "message:". */
  lemma FirstMessageThird(l1: string, l2: string, l3: string, rest: seq<string>)
    requires !StartsWith(l1, MessageKey) && !StartsWith(l2, MessageKey) && StartsWith(l3, MessageKey)
    ensures FirstMessage([l1] + ([l2] + ([l3] + rest))) == Strip(l3[|MessageKey|..])
  {
    var x := [l3] + rest;
    var y := [l2] + x;
    var z := [l1] + y;
    assert z[0] == l1 && z[1..] == y;
    assert y[0] == l2 && y[1..] == x;
    assert x[0] == l3;
    calc {
      FirstMessage(z);
      FirstMessage(y);
      FirstMessage(x);
      Strip(l3[|MessageKey|..]);
    }
  }

  /** The message line written by `save_version` reads back as the stripped message. */
  lemma MessageLineValue(message: string)
    ensures Strip(("message: " + message)[|MessageKey|..]) == Strip(message)
  {
    assert ("message: " + message)[|MessageKey|..] == " " + message + [];
    StripPadded(" ", message, []);
  }

  /** The message of a snapshot whose third line is its first "message:" line. */
  lemma MessageOfThirdLine(s: string, l1: string, l2: string, l3: string, rest: seq<string>)
    requires Contains(s, MessageKey)
    requires Split(s, '\n') == [l1] + ([l2] + ([l3] + rest))
    requires !StartsWith(l1, MessageKey) && !StartsWith(l2, MessageKey) && StartsWith(l3, MessageKey)
    ensures MessageOf(s) == Strip(l3[|MessageKey|..])
  {
    FirstMessageThird(l1, l2, l3, rest);
  }

  /** The history listing shows the message a snapshot was saved with, stripped,
      when neither the time nor the message spans several lines. */
  lemma MessageOfWrap(timestamp: string, message: string, document: string)
    requires '\n' !in timestamp && '\n' !in message
    ensures MessageOf(Wrap(timestamp, message, document)) == Strip(message)
  {
    var l2, l3 := "timestamp: " + timestamp, "message: " + message;
    FirstCharMismatch(Opening, MessageKey);
    FirstCharMismatch(l2, MessageKey);
    assert StartsWith(l3, MessageKey);
    WrapHasMessageKey(timestamp, message, document);
    WrapLines(timestamp, message, document);
    MessageOfThirdLine(Wrap(timestamp, message, document), Opening, l2, l3, Split(Closing + "\n" + document, '\n'));
    MessageLineValue(message);
  }
}
