/**
 * The text record of a profile: one line `name?value` per saved field, the
 * naming convention that cuts a declared name at its first `_`, the boolean
 * decode rule, and the name of the file a profile is saved to.
 */
module ProfileFormat {
  import opened Wrappers
  import opened JavaStrings

  /** Written between name and value by save; load splits on the regex `\?`, the same character. */
  const SEPARATOR: char := '?'
  /** Marks the suffix of an instance-variable name (`someGuiField_var`). */
  const SUFFIX_MARK: char := '_'
  const EXTENSION: string := ".txt"

  /** The file save writes: the two parts and the extension, with no separator inserted. */
  function DataFilePath(filePath: string, fileName: string): (p: string)
    ensures |p| == |filePath| + |fileName| + |EXTENSION|
    ensures p[..|filePath|] == filePath
    ensures p[|filePath|..|filePath| + |fileName|] == fileName
    ensures p[|filePath| + |fileName|..] == EXTENSION
  {
    filePath + fileName + EXTENSION
  }

  /** Text that `readLine` hands back as a single line: it holds no line break. */
  predicate OneLine(s: string)
  {
    '\n' !in s && '\r' !in s
  }

  /** The line save writes for one field, without its `\n` terminator: the name, the separator, the text. */
  function RecordLine(name: string, text: string): (line: string)
    ensures |line| == |name| + 1 + |text|
    ensures line[..|name|] == name && line[|name|] == SEPARATOR && line[|name| + 1..] == text
  {
    name + [SEPARATOR] + text
  }

  /**
   * `name.split("_")[0]`: the part before the first `_`. The indexing throws
   * (None) when the split is empty, that is for a name made of underscores only.
   */
  function CanonicalName(name: string): (r: Option<string>)
    ensures r.None? <==> name != [] && forall k | 0 <= k < |name| :: name[k] == SUFFIX_MARK
    ensures r.Some? ==> r.value == PrefixBefore(name, SUFFIX_MARK)
  {
    SplitEmpty(name, SUFFIX_MARK);
    var parts := Split(name, SUFFIX_MARK);
    if |parts| == 0 then None else Some(parts[0])
  }

  /** The naming convention: the variable `base_suffix` belongs to the control `base`. */
  lemma CanonicalOfSuffixed(base: string, suffix: string)
    requires base != [] && SUFFIX_MARK !in base
    ensures CanonicalName(base + [SUFFIX_MARK] + suffix) == Some(base)
  {
    PrefixBeforeSeparator(base, SUFFIX_MARK, suffix);
    assert (base + [SUFFIX_MARK] + suffix)[0] == base[0] != SUFFIX_MARK;
  }

  /**
   * The parsing part of one load step: `data = line.split("\\?")`, the field
   * `data[0].split("_")[0]` and the value `data[1]`. None stands for the
   * exception any of the three indexings throws.
   */
  function ParseLine(line: string): (r: Option<(string, string)>)
    ensures r.Some? ==> SUFFIX_MARK !in r.value.0 && SEPARATOR !in r.value.0 && SEPARATOR !in r.value.1
  {
    PiecesShape(line, SEPARATOR);
    var data := Split(line, SEPARATOR);
    if |data| < 2 then None
    else
      assert data <= Pieces(line, SEPARATOR);
      match CanonicalName(data[0])
      case None => None
      case Some(field) => Some((field, data[1]))
  }

  /**
   * Parsing fails (`data[1]` or `split("_")[0]` throws) exactly when the
   * line's split has fewer than two pieces or its first piece has no
   * canonical name. A line that parses can still name no public field; load
   * then breaks off as well (`ProfileSpec.Malformed`).
   */
  lemma ParseMissingPiece(line: string)
    ensures ParseLine(line).None?
        <==> |Split(line, SEPARATOR)| < 2 || CanonicalName(Split(line, SEPARATOR)[0]).None?
  {
  }

  /** A line without the separator, such as the tail of a value cut at a line break, fails to parse. */
  lemma ParseNoSeparator(line: string)
    requires SEPARATOR !in line
    ensures ParseLine(line) == None
  {
    ParseMissingPiece(line);
  }

  /** The parse of every line of a file, in file order. */
  function ParseAll(lines: seq<string>): (r: seq<Option<(string, string)>>)
    decreases |lines|
  {
    if lines == [] then [] else [ParseLine(lines[0])] + ParseAll(lines[1..])
  }

  /** Parsing a file line by line: the first line's parse, then the rest's. */
  lemma ParseAllCons(line: string, rest: seq<string>)
    ensures ParseAll([line] + rest) == [ParseLine(line)] + ParseAll(rest)
  {
    assert ([line] + rest)[1..] == rest;
  }

  /** `value.equals("true")`: exact and case-sensitive, so only the text a saved `true` has decodes to true. */
  function DecodeFlag(value: string): (b: bool)
    ensures b <==> value == EncodeFlag(true)
  {
    value == "true"
  }

  /** `String.valueOf(b)`, the text a boolean field is saved as. */
  function EncodeFlag(b: bool): (text: string)
    ensures text == "true" || text == "false"
    ensures b <==> text == "true"
  {
    if b then "true" else "false"
  }

  /** A saved boolean decodes back to itself. */
  lemma FlagRoundTrip(b: bool)
    ensures DecodeFlag(EncodeFlag(b)) == b
  {
  }

  /** Near misses of `true` decode to false: `True`, `TRUE`, `1` and the empty text. */
  lemma DecodeFlagExact()
    ensures !DecodeFlag("True") && !DecodeFlag("TRUE") && !DecodeFlag("1") && !DecodeFlag("")
  {
  }

  /** The pieces of `name?text` when neither part holds the separator. */
  lemma PiecesOfRecordLine(name: string, text: string)
    requires SEPARATOR !in name && SEPARATOR !in text
    ensures Pieces(RecordLine(name, text), SEPARATOR) == [name, text]
  {
    assert Join([name, text], SEPARATOR) == RecordLine(name, text);
    PiecesJoin([name, text], SEPARATOR);
  }

  /** A line whose split has at least two pieces parses to the canonical form of the first and to the second. */
  lemma ParseBySplit(line: string, name: string, text: string)
    requires |Split(line, SEPARATOR)| >= 2
    requires Split(line, SEPARATOR)[0] == name && Split(line, SEPARATOR)[1] == text
    ensures ParseLine(line) == if CanonicalName(name).None? then None else Some((CanonicalName(name).value, text))
  {
  }

  /**
   * Round trip of one line: parsing what save wrote for a field yields the
   * field's canonical name and exactly its value text, provided the text is
   * non-empty and neither part holds the separator.
   */
  lemma ParseRecordLine(name: string, text: string)
    requires SEPARATOR !in name && SEPARATOR !in text && text != ""
    ensures ParseLine(RecordLine(name, text))
         == if CanonicalName(name).None? then None else Some((CanonicalName(name).value, text))
  {
    var line := RecordLine(name, text);
    PiecesOfRecordLine(name, text);
    assert line[|name|] == SEPARATOR;
    assert Split(line, SEPARATOR) == [name, text];
    ParseBySplit(line, name, text);
  }

  /** An empty value does not round-trip: `name?` splits into one piece and is malformed. */
  lemma ParseEmptyValue(name: string)
    requires SEPARATOR !in name
    ensures ParseLine(RecordLine(name, "")) == None
  {
    var line := RecordLine(name, "");
    PiecesOfRecordLine(name, "");
    assert line[|name|] == SEPARATOR;
    assert |Split(line, SEPARATOR)| <= 1;
  }

  /** `name??` is malformed too: both pieces after the name are empty and dropped. */
  lemma ParseDoubledSeparator(name: string)
    requires SEPARATOR !in name
    ensures ParseLine(name + [SEPARATOR, SEPARATOR]) == None
  {
    var line := name + [SEPARATOR, SEPARATOR];
    assert Join(["", ""], SEPARATOR) == [SEPARATOR];
    assert Join([name, "", ""], SEPARATOR) == line;
    PiecesJoin([name, "", ""], SEPARATOR);
    assert line[|name|] == SEPARATOR;
    assert |Split(line, SEPARATOR)| <= 1;
  }

  /** In `name?text?rest` the value is `text`; whatever follows the second separator is discarded. */
  lemma ParseDiscardsRest(name: string, text: string, rest: string)
    requires SEPARATOR !in name && SEPARATOR !in text && text != ""
    ensures ParseLine(RecordLine(name, text) + [SEPARATOR] + rest) == ParseLine(RecordLine(name, text))
  {
    var line := RecordLine(name, text) + [SEPARATOR] + rest;
    var ps := Pieces(line, SEPARATOR);
    assert ps[..2] == [name, text] by {
      assert line == name + [SEPARATOR] + (text + [SEPARATOR] + rest);
      PiecesAfter(name, SEPARATOR, text + [SEPARATOR] + rest);
      PiecesAfter(text, SEPARATOR, rest);
    }
    var data := Split(line, SEPARATOR);
    assert |data| >= 2 && data[0] == name && data[1] == text by {
      assert line[|name|] == SEPARATOR;
      assert data == DropTrailingEmpty(ps);
      assert ps[1] == [name, text][1] != "";
    }
    ParseBySplit(line, name, text);
    ParseRecordLine(name, text);
  }
}
