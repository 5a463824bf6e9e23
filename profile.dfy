/**
 * The profile engine: save, load and clear, each proved to do what the
 * functions of ProfileSpec say. The file system and the error stream are
 * objects the methods are handed.
 */
module Profile {
  import opened Wrappers
  import opened ProfileFormat
  import opened Controllers
  import opened ProfileSpec

  /** The file system as the engine sees it: each file a sequence of lines. */
  class Disk {
    var files: map<string, seq<string>>
    /** Paths a FileWriter cannot open. */
    const unwritable: set<string>

    constructor (files: map<string, seq<string>>, unwritable: set<string>)
      ensures this.files == files && this.unwritable == unwritable
    {
      this.files := files;
      this.unwritable := unwritable;
    }

    /** `new FileWriter(path)`: creates the file, or truncates the one already there. */
    method Create(path: string)
      requires path !in unwritable
      modifies this
      ensures files == old(files)[path := []]
    {
      files := files[path := []];
    }

    /** `writer.write(line + "\n")`: one more line at the end of the file. */
    method WriteLine(path: string, line: string)
      requires path in files
      modifies this
      ensures files == old(files)[path := old(files)[path] + [line]]
    {
      files := files[path := files[path] + [line]];
    }
  }

  /** `System.err`: an append-only log of diagnostics. */
  class ErrStream {
    var entries: seq<Diagnostic>

    constructor ()
      ensures entries == []
    {
      entries := [];
    }

    method Emit(d: Diagnostic)
      modifies this
      ensures entries == old(entries) + [d]
    {
      entries := entries + [d];
    }
  }

  /**
   * Write one line `name?text` for every declared field of `c` that carries
   * annotation `a`, in declaration order, to `filePath + fileName + ".txt"`.
   */
  method Save(c: Controller, a: Tag, filePath: string, fileName: string, disk: Disk) returns (out: Outcome)
    modifies disk
    ensures var path := DataFilePath(filePath, fileName);
      if path in disk.unwritable then
        out == Thrown(IOFailure(path)) && disk.files == old(disk.files)
      else
        var r := Saved(c.cls.declared, c.values, a);
        && disk.files == old(disk.files)[path := r.lines]
        && out == if r.failedAt.Some? then Thrown(AccessFailure(r.failedAt.value)) else Normal
  {
    var path := DataFilePath(filePath, fileName);
    if path in disk.unwritable {
      return Thrown(IOFailure(path));
    }
    disk.Create(path);
    var f := c.cls.declared;
    var i := 0;
    while i < |f|
      invariant 0 <= i <= |f|
      invariant Saved(f[..i], c.values, a).failedAt == None
      invariant disk.files == old(disk.files)[path := Saved(f[..i], c.values, a).lines]
    {
      SavedSnoc(f, i, c.values, a);
      if a in f[i].tags {
        if !f[i].accessible {
          SavedStopped(f, i + 1, c.values, a);
          return Thrown(AccessFailure(f[i].name));
        }
        disk.WriteLine(path, RecordLine(f[i].name, FieldText(c.values, f[i].name)));
      }
      i := i + 1;
    }
    assert f[..i] == f;
    out := Normal;
  }

  /** One more field of the loop of save: skipped, failed on, or written. */
  lemma SavedSnoc(f: seq<FieldDecl>, i: nat, values: map<string, Value>, a: Tag)
    requires i < |f| && Saved(f[..i], values, a).failedAt == None
    ensures var done := Saved(f[..i], values, a); var d := f[i];
      Saved(f[..i + 1], values, a)
      == if a !in d.tags then done
         else if !d.accessible then SaveResult(done.lines, Some(d.name))
         else SaveResult(done.lines + [RecordLine(d.name, FieldText(values, d.name))], None)
  {
    SavedAppend(f[..i], [f[i]], values, a);
    assert f[..i + 1] == f[..i] + [f[i]];
    assert Saved([f[i]][1..], values, a) == SaveResult([], None);
  }

  /** Once the loop of save has failed, the fields after it change nothing. */
  lemma SavedStopped(f: seq<FieldDecl>, i: nat, values: map<string, Value>, a: Tag)
    requires i <= |f| && Saved(f[..i], values, a).failedAt.Some?
    ensures Saved(f, values, a) == Saved(f[..i], values, a)
  {
    SavedAppend(f[..i], f[i..], values, a);
    assert f[..i] + f[i..] == f;
  }

  /**
   * Read the file at `filePath` line by line and hand each value to the
   * setter named by the line's canonical field name.
   */
  method Load(c: Controller, filePath: string, disk: Disk, err: ErrStream) returns (out: Outcome)
    modifies c, err
    ensures filePath !in disk.files ==>
      out == Thrown(IOFailure(filePath)) && c.values == old(c.values) && err.entries == old(err.entries)
    ensures filePath in disk.files ==>
      var r := Loaded(c.cls, old(c.values), old(err.entries), ParseAll(disk.files[filePath]));
      && c.values == r.values
      && err.entries == r.log
      && out == if r.end.Raised? then Thrown(UnsupportedType(r.end.typeName)) else Normal
  {
    if filePath !in disk.files {
      return Thrown(IOFailure(filePath));
    }
    var lines := disk.files[filePath];
    ghost var final := Loaded(c.cls, c.values, err.entries, ParseAll(lines));
    var i := 0;
    assert lines[i..] == lines;
    while i < |lines|
      invariant 0 <= i <= |lines|
      invariant final == Loaded(c.cls, c.values, err.entries, ParseAll(lines[i..]))
    {
      var halt, raised := LoadLine(c, lines[i], err);
      assert lines[i..][0] == lines[i] && lines[i..][1..] == lines[i + 1..];
      if halt {
        return Normal;
      }
      if raised.Some? {
        return Thrown(UnsupportedType(raised.value));
      }
      i := i + 1;
    }
    out := Normal;
  }

  /**
   * One pass of load's loop: split the line, find the public field named by
   * the canonical form of its first piece, and hand it the second piece. A
   * line without those pieces or naming no public field prints the general
   * error and halts the loop.
   */
  method LoadLine(c: Controller, line: string, err: ErrStream) returns (halt: bool, raised: Option<string>)
    modifies c, err
    ensures var e := LineStep(c.cls, old(c.values), ParseLine(line));
      && (halt <==> e.Halt?)
      && (raised.Some? <==> e.Raise?)
      && (e.Halt? ==> c.values == old(c.values) && err.entries == old(err.entries) + [ErrorLine(GENERAL_ERROR)])
      && (e.Raise? ==> raised.value == e.typeName && c.values == old(c.values) && err.entries == old(err.entries))
      && (e.Next? ==> c.values == e.values && err.entries == old(err.entries) + e.diags)
  {
    var parsed := ParseLine(line);
    if parsed.None? || parsed.value.0 !in c.cls.publicFields {
      err.Emit(ErrorLine(GENERAL_ERROR));
      return true, None;
    }
    halt := false;
    raised := ApplyLine(c, parsed, err);
  }

  /**
   * The body of load's loop for a line that names a public field: decode the
   * value for the field's kind and call its setter, reporting a failed call.
   * Returns the simple type name when the field's kind is not supported.
   */
  method ApplyLine(c: Controller, entry: Entry, err: ErrStream) returns (raised: Option<string>)
    requires !Malformed(c.cls, entry)
    modifies c, err
    ensures var e := LineStep(c.cls, old(c.values), entry);
      && (raised.Some? <==> e.Raise?)
      && (e.Raise? ==> raised.value == e.typeName && c.values == old(c.values) && err.entries == old(err.entries))
      && (e.Next? ==> c.values == e.values && err.entries == old(err.entries) + e.diags)
  {
    var (field, value) := entry.value;
    var kind := c.cls.publicFields[field];
    var ok;
    if kind == TextLike {
      ok := c.Invoke(field, StringParam, Str(value));
    } else if kind == BoolLike {
      if value == "true" {
        ok := c.Invoke(field, BooleanParam, Bool(true));
      } else {
        ok := c.Invoke(field, BooleanParam, Bool(false));
      }
    } else {
      return Some(kind.simpleName);
    }
    if !ok {
      err.Emit(StackTrace(field));
      err.Emit(ErrorLine(GENERAL_ERROR));
    }
    raised := None;
  }

  /**
   * Hand every declared field of `c` that carries annotation `a`, in
   * declaration order, the default of its type through the setter named by
   * the part of its name before the first `_`.
   */
  method Clear(c: Controller, a: Tag, err: ErrStream) returns (out: Outcome)
    modifies c, err
    ensures var r := Cleared(c.cls, old(c.values), old(err.entries), c.cls.declared, a);
      && c.values == r.values
      && err.entries == r.log
      && out == r.out
  {
    var f := c.cls.declared;
    ghost var final := Cleared(c.cls, c.values, err.entries, f, a);
    var i := 0;
    assert f[i..] == f;
    while i < |f|
      invariant 0 <= i <= |f|
      invariant final == Cleared(c.cls, c.values, err.entries, f[i..], a)
    {
      assert f[i..][0] == f[i] && f[i..][1..] == f[i + 1..];
      if a in f[i].tags {
        var canonical := CanonicalName(f[i].name);
        if canonical.None? {
          return Thrown(IndexOutOfBounds);
        }
        var setter := canonical.value;
        ghost var before := c.values;
        var ok := true;
        match f[i].typ {
          case StringType =>
            ok := c.Invoke(setter, StringParam, Str(""));
          case OtherPrimitive(_) =>
            ok := c.Invoke(setter, StringParam, Str(""));
          case BooleanType =>
            ok := c.Invoke(setter, BooleanParam, Bool(false));
          case ClassType(_) =>
            if setter !in c.cls.publicFields {
              err.Emit(StackTrace(setter));
              return Thrown(NullPointer);
            }
            return Thrown(UnsupportedType(setter));
        }
        ghost var (p, arg) := DefaultArg(f[i].typ).value;
        assert ok <==> Call(c.cls, before, setter, p, arg).Some?;
        if !ok {
          err.Emit(StackTrace(setter));
        }
      }
      i := i + 1;
    }
    out := Normal;
  }
}
