/**
 * What save, load and clear compute, as functions over the controller's
 * table and field values. The methods in module Profile are proved to do
 * exactly this; module ProfileProperties proves what it means.
 */
module ProfileSpec {
  import opened Wrappers
  import opened ProfileFormat
  import opened Controllers

  const GENERAL_ERROR: string := "Invalid Profile data or format."

  /** One entry on the error stream: a printed message, or a printed stack trace of a failed setter. */
  datatype Diagnostic = ErrorLine(text: string) | StackTrace(failed: string)

  /** The exceptions that leave save, load or clear. */
  datatype Failure =
    | IOFailure(path: string)           // the file cannot be opened
    | AccessFailure(field: string)      // `f.get(c)` on a field the engine may not read
    | UnsupportedType(detail: string)   // UnsupportedOperationException
    | NullPointer                       // clear's message built from a field that was not found
    | IndexOutOfBounds                  // `split("_")[0]` on a name of underscores only

  datatype Outcome = Normal | Thrown(failure: Failure)

  // ---------------------------------------------------------------- save

  /** `"" + f.get(c)`: the text of a stored value; a field that holds null prints as `null`. */
  function FieldText(values: map<string, Value>, name: string): (text: string)
    ensures name !in values ==> text == "null"
    ensures name in values && values[name].Str? ==> text == values[name].s
    ensures name in values && values[name].Bool? ==> text == EncodeFlag(values[name].b)
    ensures name in values && values[name].Bool? ==> DecodeFlag(text) == values[name].b
  {
    if name !in values then "null"
    else match values[name]
      case Str(s) => s
      case Bool(b) => EncodeFlag(b)
  }

  /** The lines save writes, and the field whose read threw, if one did. */
  datatype SaveResult = SaveResult(lines: seq<string>, failedAt: Option<string>)

  /**
   * The loop of save over the declared fields `ds`: one line per annotated
   * field, stopping at the first annotated field that cannot be read.
   */
  function Saved(ds: seq<FieldDecl>, values: map<string, Value>, tag: Tag): (r: SaveResult)
    ensures |r.lines| <= |ds|
    decreases |ds|
  {
    if ds == [] then SaveResult([], None)
    else
      var d := ds[0];
      if tag !in d.tags then Saved(ds[1..], values, tag)
      else if !d.accessible then SaveResult([], Some(d.name))
      else
        var r := Saved(ds[1..], values, tag);
        SaveResult([RecordLine(d.name, FieldText(values, d.name))] + r.lines, r.failedAt)
  }

  /** Saving a concatenation: the second part is saved only when the first did not fail. */
  lemma {:induction false} SavedAppend(xs: seq<FieldDecl>, ys: seq<FieldDecl>, values: map<string, Value>, tag: Tag)
    ensures var a := Saved(xs, values, tag);
      Saved(xs + ys, values, tag)
      == if a.failedAt.Some? then a
         else SaveResult(a.lines + Saved(ys, values, tag).lines, Saved(ys, values, tag).failedAt)
    decreases |xs|
  {
    if xs == [] {
      assert xs + ys == ys;
    } else {
      var d := xs[0];
      assert (xs + ys)[0] == d;
      assert (xs + ys)[1..] == xs[1..] + ys;
      SavedAppend(xs[1..], ys, values, tag);
      if tag in d.tags && d.accessible {
        var line := RecordLine(d.name, FieldText(values, d.name));
        var a := Saved(xs[1..], values, tag);
        assert Saved(xs, values, tag) == SaveResult([line] + a.lines, a.failedAt);
      }
    }
  }

  // ---------------------------------------------------------------- load

  /** One parsed line: the canonical field name and the value, or None when the pieces are missing. */
  type Entry = Option<(string, string)>

  /** A line load gives up on: its pieces are missing, or its name is not a public field. */
  function Malformed(cls: ClassInfo, entry: Entry): (bad: bool)
    ensures JavaNames(cls) && entry.Some? && entry.value.0 == "" ==> bad
  {
    entry.None? || entry.value.0 !in cls.publicFields
  }

  /** What one line of the record does. */
  datatype LineEffect =
    | Halt                                                        // malformed: print and break
    | Next(values: map<string, Value>, diags: seq<Diagnostic>)    // applied, or setter failed and reported
    | Raise(typeName: string)                                     // unsupported field type

  /** The effect of a setter call: its new values, or the unchanged ones and two diagnostics. */
  function Applied(call: Option<map<string, Value>>, values: map<string, Value>, field: string): LineEffect
  {
    match call
    case Some(v) => Next(v, [])
    case None => Next(values, [StackTrace(field), ErrorLine(GENERAL_ERROR)])
  }

  /** The setter parameter and the decoded argument for a value bound for a field of `kind`; None for the unsupported kinds. */
  function LoadArg(kind: Kind, value: string): (r: Option<(Param, Value)>)
    ensures r.None? <==> kind.Other?
    ensures kind == TextLike ==> r == Some((StringParam, Str(value)))
    ensures kind == BoolLike ==> r == Some((BooleanParam, Bool(DecodeFlag(value))))
  {
    match kind
    case TextLike => Some((StringParam, Str(value)))
    case BoolLike => Some((BooleanParam, Bool(DecodeFlag(value))))
    case Other(_) => None
  }

  /**
   * One pass of load's loop over a parsed line: halt on a malformed line,
   * raise for a control of an unsupported kind, and otherwise call the setter,
   * reporting a call that fails and leaves the values as they were.
   */
  function LineStep(cls: ClassInfo, values: map<string, Value>, entry: Entry): (e: LineEffect)
    ensures e.Halt? <==> Malformed(cls, entry)
    ensures e.Raise? ==> cls.publicFields[entry.value.0] == Other(e.typeName)
    ensures e.Next? ==>
      (e.diags == [] || (e.values == values && e.diags == [StackTrace(entry.value.0), ErrorLine(GENERAL_ERROR)]))
  {
    if Malformed(cls, entry) then Halt
    else
      var (field, value) := entry.value;
      var kind := cls.publicFields[field];
      match LoadArg(kind, value)
      case None => Raise(kind.simpleName)
      case Some((p, arg)) => Applied(Call(cls, values, field, p, arg), values, field)
  }

  /** How the line loop ended: input used up, a break on a malformed line, or a throw. */
  datatype LoadEnd = Exhausted | Halted | Raised(typeName: string)

  /** Where the loop ended, the field values then, and the whole error stream. */
  datatype LoadResult = LoadResult(values: map<string, Value>, log: seq<Diagnostic>, end: LoadEnd)

  /**
   * The line loop of load over the parsed lines of a file, starting from the
   * field values `values` with `printed` already on the error stream.
   */
  function Loaded(cls: ClassInfo, values: map<string, Value>, printed: seq<Diagnostic>, entries: seq<Entry>)
    : (r: LoadResult)
    ensures printed <= r.log
    decreases |entries|
  {
    if entries == [] then LoadResult(values, printed, Exhausted)
    else match LineStep(cls, values, entries[0])
      case Halt => LoadResult(values, printed + [ErrorLine(GENERAL_ERROR)], Halted)
      case Raise(t) => LoadResult(values, printed, Raised(t))
      case Next(v, diags) => Loaded(cls, v, printed + diags, entries[1..])
  }

  /** Loading a concatenation: the second part is loaded, from where the first left off, only when the first ran to its end. */
  lemma {:induction false} LoadedAppend(cls: ClassInfo, values: map<string, Value>, printed: seq<Diagnostic>,
                                        xs: seq<Entry>, ys: seq<Entry>)
    ensures var a := Loaded(cls, values, printed, xs);
      Loaded(cls, values, printed, xs + ys) == if a.end.Exhausted? then Loaded(cls, a.values, a.log, ys) else a
    decreases |xs|
  {
    if xs == [] {
      assert xs + ys == ys;
    } else {
      assert (xs + ys)[0] == xs[0];
      assert (xs + ys)[1..] == xs[1..] + ys;
      var e := LineStep(cls, values, xs[0]);
      if e.Next? {
        LoadedAppend(cls, e.values, printed + e.diags, xs[1..], ys);
      }
    }
  }

  // ---------------------------------------------------------------- clear

  /** The setter parameter and the argument clear uses for a declared type; None for the unsupported ones. */
  function DefaultArg(t: DeclType): (r: Option<(Param, Value)>)
    ensures r.None? <==> t.ClassType?
    ensures r.Some? ==> (r.value.0 == BooleanParam <==> t == BooleanType)
    ensures r.Some? && r.value.0 == StringParam ==> r.value.1 == Str("")
    ensures r.Some? && r.value.0 == BooleanParam ==> r.value.1 == Bool(false)
  {
    match t
    case StringType => Some((StringParam, Str("")))
    case OtherPrimitive(_) => Some((StringParam, Str("")))
    case BooleanType => Some((BooleanParam, Bool(false)))
    case ClassType(_) => None
  }

  /** Where clear ended, the field values then, and the whole error stream. */
  datatype ClearResult = ClearResult(values: map<string, Value>, log: seq<Diagnostic>, out: Outcome)

  /**
   * The abort of clear at an annotated field whose type has no default: the
   * unsupported-type exception names the public field found under `setter`;
   * when there is none, the lookup's stack trace is printed and building the
   * message throws a null pointer exception instead.
   */
  function Unsupported(cls: ClassInfo, values: map<string, Value>, printed: seq<Diagnostic>, setter: string)
    : (r: ClearResult)
    ensures r.out.Thrown? && r.values == values && printed <= r.log && |r.log| <= |printed| + 1
    ensures r.log == printed || r.log == printed + [StackTrace(setter)]
  {
    if setter in cls.publicFields then ClearResult(values, printed, Thrown(UnsupportedType(setter)))
    else ClearResult(values, printed + [StackTrace(setter)], Thrown(NullPointer))
  }

  /**
   * The field loop of clear over the declared fields `ds`, starting from the
   * field values `values` with `printed` already on the error stream.
   */
  function Cleared(cls: ClassInfo, values: map<string, Value>, printed: seq<Diagnostic>, ds: seq<FieldDecl>, tag: Tag)
    : (r: ClearResult)
    ensures printed <= r.log
    decreases |ds|
  {
    if ds == [] then ClearResult(values, printed, Normal)
    else
      var d := ds[0];
      if tag !in d.tags then Cleared(cls, values, printed, ds[1..], tag)
      else match CanonicalName(d.name)
        case None => ClearResult(values, printed, Thrown(IndexOutOfBounds))
        case Some(setter) =>
          match DefaultArg(d.typ)
          case None => Unsupported(cls, values, printed, setter)
          case Some((p, arg)) =>
            match Call(cls, values, setter, p, arg)
            case Some(v) => Cleared(cls, v, printed, ds[1..], tag)
            case None => Cleared(cls, values, printed + [StackTrace(setter)], ds[1..], tag)
  }

  /** Clearing a concatenation: the second part is cleared, from where the first left off, only when the first did not throw. */
  lemma {:induction false} ClearedAppend(cls: ClassInfo, values: map<string, Value>, printed: seq<Diagnostic>,
                                         xs: seq<FieldDecl>, ys: seq<FieldDecl>, tag: Tag)
    ensures var a := Cleared(cls, values, printed, xs, tag);
      Cleared(cls, values, printed, xs + ys, tag) == if a.out.Normal? then Cleared(cls, a.values, a.log, ys, tag) else a
    decreases |xs|
  {
    if xs == [] {
      assert xs + ys == ys;
    } else {
      assert (xs + ys)[0] == xs[0];
      assert (xs + ys)[1..] == xs[1..] + ys;
      var d := xs[0];
      if tag !in d.tags {
        ClearedAppend(cls, values, printed, xs[1..], ys, tag);
      } else if CanonicalName(d.name).Some? && DefaultArg(d.typ).Some? {
        var setter := CanonicalName(d.name).value;
        var (p, arg) := DefaultArg(d.typ).value;
        match Call(cls, values, setter, p, arg)
        case Some(v) => ClearedAppend(cls, v, printed, xs[1..], ys, tag);
        case None => ClearedAppend(cls, values, printed + [StackTrace(setter)], xs[1..], ys, tag);
      }
    }
  }
}
