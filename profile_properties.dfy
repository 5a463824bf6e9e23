/**
 * What save, load and clear mean: the lines save writes, where load stops and
 * what it leaves alone, the save/load round trip, and what clear resets.
 * Every lemma is about the functions of module ProfileSpec, which the methods
 * of module Profile are proved to compute.
 */
module ProfileProperties {
  import opened Wrappers
  import opened JavaStrings
  import opened ProfileFormat
  import opened Controllers
  import opened ProfileSpec

  // ---------------------------------------------------------------- save

  /** The fields that carry annotation `tag`, in declaration order. */
  function Annotated(ds: seq<FieldDecl>, tag: Tag): seq<FieldDecl>
    decreases |ds|
  {
    if ds == [] then []
    else if tag in ds[0].tags then [ds[0]] + Annotated(ds[1..], tag)
    else Annotated(ds[1..], tag)
  }

  /** The annotated fields are exactly the declared fields carrying the tag. */
  lemma {:induction false} AnnotatedMembers(ds: seq<FieldDecl>, tag: Tag)
    ensures forall d :: d in Annotated(ds, tag) <==> d in ds && tag in d.tags
    decreases |ds|
  {
    if ds != [] {
      AnnotatedMembers(ds[1..], tag);
      assert forall d :: d in ds <==> d == ds[0] || d in ds[1..];
    }
  }

  /**
   * Save writes one `name?value` line per annotated field, in declaration
   * order, and stops at the first annotated field it may not read: the lines
   * written are those of the annotated fields before it.
   */
  lemma {:induction false} SavedLines(ds: seq<FieldDecl>, values: map<string, Value>, tag: Tag)
    ensures var r := Saved(ds, values, tag); var a := Annotated(ds, tag);
      && |r.lines| <= |a|
      && (forall j | 0 <= j < |r.lines| ::
            a[j].accessible && r.lines[j] == RecordLine(a[j].name, FieldText(values, a[j].name)))
      && (r.failedAt.None? ==> |r.lines| == |a|)
      && (r.failedAt.Some? ==> |r.lines| < |a| && !a[|r.lines|].accessible && r.failedAt.value == a[|r.lines|].name)
    decreases |ds|
  {
    if ds != [] {
      SavedLines(ds[1..], values, tag);
      var d := ds[0];
      if tag in d.tags && d.accessible {
        var rest := Saved(ds[1..], values, tag);
        var r := Saved(ds, values, tag);
        var a := Annotated(ds, tag);
        assert a == [d] + Annotated(ds[1..], tag);
        assert r.lines == [RecordLine(d.name, FieldText(values, d.name))] + rest.lines && r.failedAt == rest.failedAt;
        forall j | 1 <= j < |r.lines|
          ensures a[j].accessible && r.lines[j] == RecordLine(a[j].name, FieldText(values, a[j].name))
        {
          assert r.lines[j] == rest.lines[j - 1] && a[j] == Annotated(ds[1..], tag)[j - 1];
        }
        if r.failedAt.Some? {
          assert a[|r.lines|] == Annotated(ds[1..], tag)[|rest.lines|];
        }
      }
    }
  }

  /** Save fails exactly when some annotated field cannot be read. */
  lemma SaveFailsIffInaccessible(ds: seq<FieldDecl>, values: map<string, Value>, tag: Tag)
    ensures Saved(ds, values, tag).failedAt.Some?
        <==> exists d | d in ds :: tag in d.tags && !d.accessible
  {
    SavedLines(ds, values, tag);
    AnnotatedMembers(ds, tag);
    var r := Saved(ds, values, tag);
    var a := Annotated(ds, tag);
    if r.failedAt.Some? {
      assert a[|r.lines|] in a;
    } else {
      forall d | d in ds && tag in d.tags
        ensures d.accessible
      {
        assert d in a;
        var j :| 0 <= j < |a| && a[j] == d;
      }
    }
  }

  // ---------------------------------------------------------------- load

  /**
   * Load only appends to the error stream, and what was printed before it
   * started changes nothing else: the values, the end and the lines it
   * prints are those of a load onto an empty stream.
   */
  lemma {:induction false} LoadedAppendsToStream(cls: ClassInfo, values: map<string, Value>,
                                                 printed: seq<Diagnostic>, entries: seq<Entry>)
    ensures var r := Loaded(cls, values, printed, entries); var z := Loaded(cls, values, [], entries);
      r.values == z.values && r.end == z.end && r.log == printed + z.log
    decreases |entries|
  {
    if entries != [] {
      var e := LineStep(cls, values, entries[0]);
      if e.Next? {
        LoadedAppendsToStream(cls, e.values, printed + e.diags, entries[1..]);
        LoadedAppendsToStream(cls, e.values, e.diags, entries[1..]);
        assert [] + e.diags == e.diags;
        ConcatAssoc(printed, e.diags, Loaded(cls, e.values, [], entries[1..]).log);
      } else if e.Halt? {
        assert [] + [ErrorLine(GENERAL_ERROR)] == [ErrorLine(GENERAL_ERROR)];
      }
    }
  }

  /** Appending to the stream in two steps is appending both at once. */
  lemma ConcatAssoc(a: seq<Diagnostic>, b: seq<Diagnostic>, c: seq<Diagnostic>)
    ensures a + b + c == a + (b + c)
  {
  }

  /** A load that broke off on a malformed line printed the general error message last. */
  lemma {:induction false} HaltedLogEndsWithError(cls: ClassInfo, values: map<string, Value>,
                                                  printed: seq<Diagnostic>, entries: seq<Entry>)
    ensures var r := Loaded(cls, values, printed, entries);
      r.end == Halted ==> |r.log| >= 1 && r.log[|r.log| - 1] == ErrorLine(GENERAL_ERROR)
    decreases |entries|
  {
    if entries != [] {
      var e := LineStep(cls, values, entries[0]);
      if e.Next? {
        HaltedLogEndsWithError(cls, e.values, printed + e.diags, entries[1..]);
      }
    }
  }

  /**
   * A malformed line stops load: the values are those the lines before it
   * left, nothing after it is applied, and the general error is printed last.
   */
  lemma LoadStopsAtMalformed(cls: ClassInfo, values: map<string, Value>, printed: seq<Diagnostic>,
                             xs: seq<Entry>, bad: Entry, ys: seq<Entry>)
    requires Loaded(cls, values, printed, xs).end == Exhausted
    requires Malformed(cls, bad)
    ensures var a := Loaded(cls, values, printed, xs);
      Loaded(cls, values, printed, xs + [bad] + ys) == LoadResult(a.values, a.log + [ErrorLine(GENERAL_ERROR)], Halted)
  {
    LoadedAppend(cls, values, printed, xs, [bad] + ys);
    assert xs + [bad] + ys == xs + ([bad] + ys);
  }

  /**
   * A field of an unsupported kind makes load throw at its line: the values
   * and the error stream are those the lines before it left, and nothing is undone.
   */
  lemma LoadRaisesOnOtherKind(cls: ClassInfo, values: map<string, Value>, printed: seq<Diagnostic>,
                              xs: seq<Entry>, field: string, value: string, ys: seq<Entry>)
    requires Loaded(cls, values, printed, xs).end == Exhausted
    requires field in cls.publicFields && cls.publicFields[field].Other?
    ensures var a := Loaded(cls, values, printed, xs);
      Loaded(cls, values, printed, xs + [Some((field, value))] + ys)
      == LoadResult(a.values, a.log, Raised(cls.publicFields[field].simpleName))
  {
    LoadedAppend(cls, values, printed, xs, [Some((field, value))] + ys);
    assert xs + [Some((field, value))] + ys == xs + ([Some((field, value))] + ys);
  }

  /**
   * A setter that is missing or throws is reported (stack trace, then the
   * general error) and load goes on with the next line, values unchanged.
   */
  lemma LoadContinuesAfterSetterFailure(cls: ClassInfo, values: map<string, Value>, printed: seq<Diagnostic>,
                                        field: string, value: string, rest: seq<Entry>)
    requires field in cls.publicFields
    requires LoadArg(cls.publicFields[field], value).Some?
    requires var (p, arg) := LoadArg(cls.publicFields[field], value).value;
      Call(cls, values, field, p, arg).None?
    ensures Loaded(cls, values, printed, [Some((field, value))] + rest)
         == Loaded(cls, values, printed + [StackTrace(field), ErrorLine(GENERAL_ERROR)], rest)
  {
    assert ([Some((field, value))] + rest)[1..] == rest;
  }

  /**
   * A line naming any public field of a supported kind is handed to its
   * setter, annotated or not: load has no annotation test, and when the
   * setter works it goes on from the values the setter left, printing nothing.
   */
  lemma LoadAppliesLine(cls: ClassInfo, values: map<string, Value>, printed: seq<Diagnostic>,
                        field: string, value: string, rest: seq<Entry>)
    requires field in cls.publicFields
    requires LoadArg(cls.publicFields[field], value).Some?
    requires var (p, arg) := LoadArg(cls.publicFields[field], value).value;
      Call(cls, values, field, p, arg).Some?
    ensures var (p, arg) := LoadArg(cls.publicFields[field], value).value;
      Loaded(cls, values, printed, [Some((field, value))] + rest)
      == Loaded(cls, Call(cls, values, field, p, arg).value, printed, rest)
  {
    assert ([Some((field, value))] + rest)[1..] == rest;
    assert printed + [] == printed;
  }

  /** The field names the parsed lines mention. */
  ghost function NamedFields(entries: seq<Entry>): set<string>
  {
    set i | 0 <= i < |entries| && entries[i].Some? :: entries[i].value.0
  }

  /** Every field a setter looked up under one of `names` can store into. */
  ghost function Targets(cls: ClassInfo, names: set<string>): set<string>
  {
    set key | key in cls.setters && key.0 in names && cls.setters[key].Stores? :: cls.setters[key].target
  }

  /** The names the later lines mention are among those of all lines, the first line's included. */
  lemma NamedFieldsCons(entries: seq<Entry>)
    requires entries != []
    ensures NamedFields(entries[1..]) <= NamedFields(entries)
    ensures entries[0].Some? ==> entries[0].value.0 in NamedFields(entries)
  {
    forall n | n in NamedFields(entries[1..]) ensures n in NamedFields(entries) {
      var i :| 0 <= i < |entries[1..]| && entries[1..][i].Some? && entries[1..][i].value.0 == n;
      assert entries[i + 1] == entries[1..][i];
    }
  }

  /**
   * Load changes only fields that a setter named by some line of the file
   * stores into; every other field keeps its value, whatever the file holds.
   */
  lemma {:induction false} LoadTouchesOnlyTargets(cls: ClassInfo, values: map<string, Value>,
                                                  printed: seq<Diagnostic>, entries: seq<Entry>)
    ensures var r := Loaded(cls, values, printed, entries);
      forall n | n !in Targets(cls, NamedFields(entries)) ::
        (n in r.values <==> n in values) && (n in values ==> r.values[n] == values[n])
    decreases |entries|
  {
    if entries != [] {
      var e := LineStep(cls, values, entries[0]);
      if e.Next? {
        LoadTouchesOnlyTargets(cls, e.values, printed + e.diags, entries[1..]);
        NamedFieldsCons(entries);
        var (field, value) := entries[0].value;
        var (p, arg) := LoadArg(cls.publicFields[field], value).value;
        if Call(cls, values, field, p, arg).Some? {
          assert cls.setters[(field, p)].target in Targets(cls, NamedFields(entries));
        }
      }
    }
  }

  // ---------------------------------------------------------------- round trip

  /**
   * An annotated field whose saved line load turns back into the same value:
   * readable, no separator or line break in its name, a value that is not
   * null, a canonical name that is a public field of a supported kind, a
   * setter under that name that stores into the field itself, and for text a
   * non-empty value without the separator or a line break (a line break would
   * make `readLine` cut the saved line in two).
   */
  ghost predicate Restorable(cls: ClassInfo, values: map<string, Value>, d: FieldDecl)
  {
    && d.accessible
    && SEPARATOR !in d.name && OneLine(d.name)
    && d.name in values
    && CanonicalName(d.name).Some?
    && var m := CanonicalName(d.name).value;
    && m in cls.publicFields
    && match cls.publicFields[m]
       case TextLike =>
         && values[d.name].Str?
         && values[d.name].s != ""
         && SEPARATOR !in values[d.name].s && OneLine(values[d.name].s)
         && (m, StringParam) in cls.setters && cls.setters[(m, StringParam)] == Stores(d.name)
       case BoolLike =>
         && values[d.name].Bool?
         && (m, BooleanParam) in cls.setters && cls.setters[(m, BooleanParam)] == Stores(d.name)
       case Other(_) => false
  }

  /** The names of the fields carrying `tag`. */
  ghost function AnnotatedNames(ds: seq<FieldDecl>, tag: Tag): set<string>
  {
    set d | d in ds && tag in d.tags :: d.name
  }

  /** Loading the line saved for one restorable field stores the field's value back. */
  lemma LoadSavedLine(cls: ClassInfo, v: map<string, Value>, w: map<string, Value>, d: FieldDecl)
    requires Restorable(cls, v, d)
    ensures LineStep(cls, w, ParseLine(RecordLine(d.name, FieldText(v, d.name)))) == Next(w[d.name := v[d.name]], [])
  {
    var text := FieldText(v, d.name);
    var m := CanonicalName(d.name).value;
    if v[d.name].Bool? {
      assert text == "true" || text == "false";
    }
    ParseRecordLine(d.name, text);
    assert ParseLine(RecordLine(d.name, text)) == Some((m, text));
  }

  /** `w` with the fields in `names` set to their values in `v`. */
  ghost function Restored(w: map<string, Value>, v: map<string, Value>, names: set<string>): map<string, Value>
    requires names <= v.Keys
  {
    w + map n | n in names :: v[n]
  }

  /** Restoring every field overwrites the whole state. */
  lemma RestoreEverything(w: map<string, Value>, v: map<string, Value>, names: set<string>)
    requires w.Keys <= names && names == v.Keys
    ensures Restored(w, v, names) == v
  {
    var r := Restored(w, v, names);
    assert r.Keys == v.Keys;
    forall n | n in r ensures r[n] == v[n] { }
  }

  /** Restoring fields to the values they already hold changes nothing. */
  lemma RestoreFromItself(v: map<string, Value>, names: set<string>)
    requires names <= v.Keys
    ensures Restored(v, v, names) == v
  {
    var r := Restored(v, v, names);
    assert r.Keys == v.Keys;
    forall n | n in r ensures r[n] == v[n] { }
  }

  /** Storing one saved value and then the others is restoring them all. */
  lemma StoreThenRestore(w: map<string, Value>, v: map<string, Value>, name: string, names: set<string>)
    requires names + {name} <= v.Keys
    ensures Restored(w[name := v[name]], v, names) == Restored(w, v, names + {name})
  {
    var lhs := Restored(w[name := v[name]], v, names);
    var rhs := Restored(w, v, names + {name});
    assert lhs.Keys == rhs.Keys;
    forall n | n in lhs.Keys
      ensures lhs[n] == rhs[n]
    {
    }
  }

  /** The annotated names of a non-empty declaration list: the first field's, if annotated, and the rest's. */
  lemma AnnotatedNamesCons(ds: seq<FieldDecl>, tag: Tag)
    requires ds != []
    ensures AnnotatedNames(ds, tag)
         == if tag in ds[0].tags then AnnotatedNames(ds[1..], tag) + {ds[0].name} else AnnotatedNames(ds[1..], tag)
  {
    assert forall e | e in ds :: e == ds[0] || e in ds[1..];
    assert forall e | e in ds[1..] :: e in ds;
  }

  /** The fields after the first are restorable when all are. */
  lemma RestorableTail(cls: ClassInfo, ds: seq<FieldDecl>, v: map<string, Value>, tag: Tag)
    requires ds != []
    requires forall d | d in ds && tag in d.tags :: Restorable(cls, v, d)
    ensures forall d | d in ds[1..] && tag in d.tags :: Restorable(cls, v, d)
    ensures tag in ds[0].tags ==> Restorable(cls, v, ds[0])
  {
    assert forall e | e in ds[1..] :: e in ds;
  }

  /** Loading what save wrote for a restorable first field stores that field back, then loads the rest. */
  lemma LoadSavedStep(cls: ClassInfo, ds: seq<FieldDecl>, v: map<string, Value>, w: map<string, Value>,
                      printed: seq<Diagnostic>, tag: Tag)
    requires ds != [] && tag in ds[0].tags && Restorable(cls, v, ds[0])
    ensures Loaded(cls, w, printed, ParseAll(Saved(ds, v, tag).lines))
         == Loaded(cls, w[ds[0].name := v[ds[0].name]], printed, ParseAll(Saved(ds[1..], v, tag).lines))
  {
    var d := ds[0];
    var line := RecordLine(d.name, FieldText(v, d.name));
    var rest := Saved(ds[1..], v, tag).lines;
    var entries := ParseAll(Saved(ds, v, tag).lines);
    assert entries == [ParseLine(line)] + ParseAll(rest) by {
      assert Saved(ds, v, tag).lines == [line] + rest;
      ParseAllCons(line, rest);
    }
    LoadSavedLine(cls, v, w, d);
    assert printed + [] == printed;
    assert entries[1..] == ParseAll(rest);
  }

  /**
   * Round trip: loading the file save wrote, into any state `w`, sets every
   * annotated field back to the value it had when saved, prints nothing and
   * runs to the end of the file; every other field keeps its value in `w`.
   */
  lemma {:induction false} LoadAfterSave(cls: ClassInfo, ds: seq<FieldDecl>, v: map<string, Value>,
                                         w: map<string, Value>, printed: seq<Diagnostic>, tag: Tag)
    requires forall d | d in ds && tag in d.tags :: Restorable(cls, v, d)
    ensures AnnotatedNames(ds, tag) <= v.Keys
    ensures Loaded(cls, w, printed, ParseAll(Saved(ds, v, tag).lines))
         == LoadResult(Restored(w, v, AnnotatedNames(ds, tag)), printed, Exhausted)
    decreases |ds|
  {
    if ds == [] {
      assert Restored(w, v, AnnotatedNames(ds, tag)) == w;
    } else {
      var d := ds[0];
      var names := AnnotatedNames(ds[1..], tag);
      AnnotatedNamesCons(ds, tag);
      RestorableTail(cls, ds, v, tag);
      if tag !in d.tags {
        LoadAfterSave(cls, ds[1..], v, w, printed, tag);
        assert Saved(ds, v, tag) == Saved(ds[1..], v, tag);
      } else {
        var w1 := w[d.name := v[d.name]];
        LoadAfterSave(cls, ds[1..], v, w1, printed, tag);
        LoadSavedStep(cls, ds, v, w, printed, tag);
        StoreThenRestore(w, v, d.name, names);
      }
    }
  }

  /** Load straight after save, on the same controller state, changes nothing and prints nothing. */
  lemma LoadAfterSaveChangesNothing(cls: ClassInfo, ds: seq<FieldDecl>, v: map<string, Value>, tag: Tag)
    requires forall d | d in ds && tag in d.tags :: Restorable(cls, v, d)
    ensures Loaded(cls, v, [], ParseAll(Saved(ds, v, tag).lines)) == LoadResult(v, [], Exhausted)
  {
    LoadAfterSave(cls, ds, v, v, [], tag);
    RestoreFromItself(v, AnnotatedNames(ds, tag));
  }

  // ---------------------------------------------------------------- clear

  /** What clear prints comes after what was printed before, which it does not read. */
  lemma {:induction false} ClearedAppendsToStream(cls: ClassInfo, v: map<string, Value>, printed: seq<Diagnostic>,
                                                  ds: seq<FieldDecl>, tag: Tag)
    ensures var r := Cleared(cls, v, printed, ds, tag); var z := Cleared(cls, v, [], ds, tag);
      r.values == z.values && r.out == z.out && r.log == printed + z.log
    decreases |ds|
  {
    if ds != [] {
      var d := ds[0];
      if tag !in d.tags {
        ClearedAppendsToStream(cls, v, printed, ds[1..], tag);
      } else if CanonicalName(d.name).None? {
        assert printed + [] == printed;
      } else if DefaultArg(d.typ).None? {
        assert printed + [] == printed;
      } else {
        var setter := CanonicalName(d.name).value;
        var (p, arg) := DefaultArg(d.typ).value;
        var call := Call(cls, v, setter, p, arg);
        if call.Some? {
          ClearedAppendsToStream(cls, call.value, printed, ds[1..], tag);
        } else {
          var trace := [StackTrace(setter)];
          assert Cleared(cls, v, printed, ds, tag) == Cleared(cls, v, printed + trace, ds[1..], tag);
          assert Cleared(cls, v, [], ds, tag) == Cleared(cls, v, [] + trace, ds[1..], tag);
          ClearedAppendsToStream(cls, v, printed + trace, ds[1..], tag);
          ClearedAppendsToStream(cls, v, trace, ds[1..], tag);
          var z := Cleared(cls, v, [], ds[1..], tag);
          ConcatAssoc(printed, trace, z.log);
          assert [] + trace == trace;
        }
      }
    }
  }

  /** Updating one field and then merging in others is merging in both. */
  lemma UpdateThenMerge(v: map<string, Value>, t: string, arg: Value, z: map<string, Value>)
    ensures v[t := arg] + z == v + (map[t := arg] + z)
  {
  }

  /** Clear overwrites fields and never reads them: it ends the same way and prints the same from any field values. */
  lemma {:induction false} ClearedKeepsValues(cls: ClassInfo, v: map<string, Value>, printed: seq<Diagnostic>,
                                              ds: seq<FieldDecl>, tag: Tag)
    ensures var r := Cleared(cls, v, printed, ds, tag); var z := Cleared(cls, map[], printed, ds, tag);
      r.values == v + z.values && r.log == z.log && r.out == z.out
    decreases |ds|
  {
    if ds != [] {
      var d := ds[0];
      if tag !in d.tags {
        ClearedKeepsValues(cls, v, printed, ds[1..], tag);
      } else if CanonicalName(d.name).Some? && DefaultArg(d.typ).Some? {
        var setter := CanonicalName(d.name).value;
        var (p, arg) := DefaultArg(d.typ).value;
        if Call(cls, v, setter, p, arg).Some? {
          var t := cls.setters[(setter, p)].target;
          assert Cleared(cls, v, printed, ds, tag) == Cleared(cls, v[t := arg], printed, ds[1..], tag);
          assert Cleared(cls, map[], printed, ds, tag) == Cleared(cls, map[t := arg], printed, ds[1..], tag);
          ClearedKeepsValues(cls, v[t := arg], printed, ds[1..], tag);
          ClearedKeepsValues(cls, map[t := arg], printed, ds[1..], tag);
          UpdateThenMerge(v, t, arg, Cleared(cls, map[], printed, ds[1..], tag).values);
        } else {
          ClearedKeepsValues(cls, v, printed + [StackTrace(setter)], ds[1..], tag);
        }
      }
    }
  }

  /**
   * What clear does does not depend on the field values or on what was
   * printed before: it overwrites the same fields with the same defaults,
   * appends the same stack traces and ends the same way, whatever they held.
   */
  lemma ClearedOverrides(cls: ClassInfo, v: map<string, Value>, printed: seq<Diagnostic>, ds: seq<FieldDecl>, tag: Tag)
    ensures var r := Cleared(cls, v, printed, ds, tag); var z := Cleared(cls, map[], [], ds, tag);
      r.values == v + z.values && r.log == printed + z.log && r.out == z.out
  {
    ClearedKeepsValues(cls, v, printed, ds, tag);
    ClearedAppendsToStream(cls, map[], printed, ds, tag);
  }

  /**
   * Clearing twice is clearing once: the second clear leaves the same values,
   * ends the same way, and prints again what the first printed.
   */
  lemma ClearIdempotent(cls: ClassInfo, v: map<string, Value>, printed: seq<Diagnostic>, ds: seq<FieldDecl>, tag: Tag)
    ensures var once := Cleared(cls, v, printed, ds, tag); var twice := Cleared(cls, once.values, once.log, ds, tag);
      && |printed| <= |once.log|
      && twice.values == once.values && twice.out == once.out
      && twice.log == once.log + once.log[|printed|..]
  {
    ClearedOverrides(cls, v, printed, ds, tag);
    var once := Cleared(cls, v, printed, ds, tag);
    ClearedOverrides(cls, once.values, once.log, ds, tag);
    var z := Cleared(cls, map[], [], ds, tag);
    assert v + z.values + z.values == v + z.values;
    assert once.log[|printed|..] == z.log;
  }

  /**
   * Every annotated field's setter is found under its canonical name, takes
   * the parameter clear passes for the field's type, and stores into that
   * field.
   */
  ghost predicate ConventionalSetters(cls: ClassInfo, ds: seq<FieldDecl>, tag: Tag)
  {
    forall d | d in ds && tag in d.tags ::
      && CanonicalName(d.name).Some?
      && DefaultArg(d.typ).Some?
      && var key := (CanonicalName(d.name).value, DefaultArg(d.typ).value.0);
      && key in cls.setters && cls.setters[key] == Stores(d.name)
  }

  /**
   * With conventional setters and distinct field names, clear runs to the
   * end without output and leaves every annotated field at its type's
   * default ("" for text and other primitives, false for a boolean); no
   * other field changes.
   */
  lemma {:induction false} ClearSetsDefaults(cls: ClassInfo, v: map<string, Value>, printed: seq<Diagnostic>,
                                             ds: seq<FieldDecl>, tag: Tag)
    requires ConventionalSetters(cls, ds, tag)
    requires DistinctNames(ds)
    ensures var r := Cleared(cls, v, printed, ds, tag);
      && r.out == Normal && r.log == printed
      && (forall d | d in ds && tag in d.tags :: d.name in r.values && r.values[d.name] == DefaultArg(d.typ).value.1)
      && (forall n | n !in AnnotatedNames(ds, tag) :: (n in r.values <==> n in v) && (n in v ==> r.values[n] == v[n]))
    decreases |ds|
  {
    if ds != [] {
      var d := ds[0];
      AnnotatedNamesCons(ds, tag);
      ConventionalTail(cls, ds, tag);
      assert forall e | e in ds :: e == d || e in ds[1..];
      if tag !in d.tags {
        ClearSetsDefaults(cls, v, printed, ds[1..], tag);
      } else {
        var arg := DefaultArg(d.typ).value.1;
        ClearSetsDefaults(cls, v[d.name := arg], printed, ds[1..], tag);
        assert forall e | e in ds[1..] :: e.name != d.name;
      }
    }
  }

  /** No two declared fields share a name. */
  ghost predicate DistinctNames(ds: seq<FieldDecl>)
  {
    forall i, j | 0 <= i < j < |ds| :: ds[i].name != ds[j].name
  }

  /** The conventions hold for the fields after the first, whose name none of them repeats. */
  lemma ConventionalTail(cls: ClassInfo, ds: seq<FieldDecl>, tag: Tag)
    requires ds != [] && ConventionalSetters(cls, ds, tag) && DistinctNames(ds)
    ensures ConventionalSetters(cls, ds[1..], tag) && DistinctNames(ds[1..])
    ensures forall e | e in ds[1..] :: e.name != ds[0].name
  {
    assert forall e | e in ds[1..] :: e in ds;
    forall i, j | 0 <= i < j < |ds[1..]| ensures ds[1..][i].name != ds[1..][j].name {
      assert ds[1..][i] == ds[i + 1] && ds[1..][j] == ds[j + 1];
    }
    forall e | e in ds[1..] ensures e.name != ds[0].name {
      var j :| 0 <= j < |ds[1..]| && ds[1..][j] == e;
      assert ds[j + 1] == e;
    }
  }

  /**
   * An annotated field whose name is underscores only, or whose type has no
   * default, makes clear throw there: the fields after it are not cleared and
   * the values are those the fields before it left.
   */
  lemma ClearAbortsAt(cls: ClassInfo, v: map<string, Value>, printed: seq<Diagnostic>, xs: seq<FieldDecl>,
                      bad: FieldDecl, ys: seq<FieldDecl>, tag: Tag)
    requires Cleared(cls, v, printed, xs, tag).out == Normal
    requires tag in bad.tags
    requires CanonicalName(bad.name).None? || bad.typ.ClassType?
    ensures var a := Cleared(cls, v, printed, xs, tag); var r := Cleared(cls, v, printed, xs + [bad] + ys, tag);
      && r.values == a.values && r.out.Thrown?
      && (CanonicalName(bad.name).None? ==> r == ClearResult(a.values, a.log, Thrown(IndexOutOfBounds)))
      && (CanonicalName(bad.name).Some? ==> r == Unsupported(cls, a.values, a.log, CanonicalName(bad.name).value))
  {
    ClearedAppend(cls, v, printed, xs, [bad] + ys, tag);
    assert xs + [bad] + ys == xs + ([bad] + ys);
    assert ([bad] + ys)[0] == bad;
  }

  /** A field without the annotation is skipped. */
  lemma ClearedSkipsUntagged(cls: ClassInfo, v: map<string, Value>, printed: seq<Diagnostic>,
                             d: FieldDecl, rest: seq<FieldDecl>, tag: Tag)
    requires tag !in d.tags
    ensures Cleared(cls, v, printed, [d] + rest, tag) == Cleared(cls, v, printed, rest, tag)
  {
    assert ([d] + rest)[1..] == rest;
  }

  /**
   * An annotated field of a supported type is handed its type's default
   * through the setter named by its canonical name; when that setter works,
   * clear goes on from the values it left, printing nothing.
   */
  lemma ClearedResets(cls: ClassInfo, v: map<string, Value>, printed: seq<Diagnostic>,
                      d: FieldDecl, rest: seq<FieldDecl>, tag: Tag, setter: string)
    requires tag in d.tags && CanonicalName(d.name) == Some(setter) && DefaultArg(d.typ).Some?
    requires var (p, arg) := DefaultArg(d.typ).value; Call(cls, v, setter, p, arg).Some?
    ensures var (p, arg) := DefaultArg(d.typ).value;
      Cleared(cls, v, printed, [d] + rest, tag) == Cleared(cls, Call(cls, v, setter, p, arg).value, printed, rest, tag)
  {
    assert ([d] + rest)[1..] == rest;
  }

  /** A setter that is missing or throws is reported with a stack trace, and clear goes on with the next field. */
  lemma ClearContinuesAfterSetterFailure(cls: ClassInfo, v: map<string, Value>, printed: seq<Diagnostic>,
                                         d: FieldDecl, rest: seq<FieldDecl>, tag: Tag)
    requires tag in d.tags && CanonicalName(d.name).Some? && DefaultArg(d.typ).Some?
    requires var (p, arg) := DefaultArg(d.typ).value;
      Call(cls, v, CanonicalName(d.name).value, p, arg).None?
    ensures Cleared(cls, v, printed, [d] + rest, tag)
         == Cleared(cls, v, printed + [StackTrace(CanonicalName(d.name).value)], rest, tag)
  {
    assert ([d] + rest)[1..] == rest;
  }

  /**
   * A text field comes back when it is readable, its name has no separator
   * or line break, its canonical name is a public text control whose String
   * setter stores into the field, and its value is non-empty without the
   * separator or a line break.
   */
  lemma TextRestorable(cls: ClassInfo, v: map<string, Value>, d: FieldDecl, setter: string, text: string)
    requires d.accessible && SEPARATOR !in d.name && OneLine(d.name) && CanonicalName(d.name) == Some(setter)
    requires d.name in v && v[d.name] == Str(text) && text != "" && SEPARATOR !in text && OneLine(text)
    requires setter in cls.publicFields && cls.publicFields[setter] == TextLike
    requires (setter, StringParam) in cls.setters && cls.setters[(setter, StringParam)] == Stores(d.name)
    ensures Restorable(cls, v, d)
  {
  }

  // ---------------------------------------------------------------- a worked example

  /**
   * A controller following the naming convention: a TextField `name` and a
   * CheckBox `active`, each with an instance variable `name_var` and
   * `active_var` tagged "P", and setters `name(String)` and `active(boolean)`
   * that store into those variables.
   */
  const EXAMPLE: ClassInfo := ClassInfo(
    [ FieldDecl("name", ClassType("TextField"), {}, true), FieldDecl("name_var", StringType, {"P"}, true),
      FieldDecl("active", ClassType("CheckBox"), {}, true), FieldDecl("active_var", BooleanType, {"P"}, true) ],
    map["name" := TextLike, "active" := BoolLike],
    map[("name", StringParam) := Stores("name_var"), ("active", BooleanParam) := Stores("active_var")])

  /** The setters the two example variables are cleared and loaded through. */
  lemma ExampleNames()
    ensures CanonicalName("name_var") == Some("name") && CanonicalName("active_var") == Some("active")
  {
    assert "name_var" == "name" + [SUFFIX_MARK] + "var";
    CanonicalOfSuffixed("name", "var");
    assert "active_var" == "active" + [SUFFIX_MARK] + "var";
    CanonicalOfSuffixed("active", "var");
  }

  /** Saving name_var = "Ann", active_var = true writes the lines `name_var?Ann` and `active_var?true`, in that order. */
  lemma ExampleSaved(v: map<string, Value>)
    requires v == map["name_var" := Str("Ann"), "active_var" := Bool(true)]
    ensures Saved(EXAMPLE.declared, v, "P") == SaveResult(["name_var?Ann", "active_var?true"], None)
  {
    var ds := EXAMPLE.declared;
    var active := SaveResult(["active_var?true"], None);
    assert Saved(ds[3..], v, "P") == active by {
      assert ds[3..][1..] == [];
      assert FieldText(v, "active_var") == "true";
      assert RecordLine("active_var", "true") == "active_var?true";
    }
    assert Saved(ds[2..], v, "P") == active by {
      assert ds[2..][1..] == ds[3..];
    }
    assert Saved(ds[1..], v, "P") == SaveResult(["name_var?Ann"] + active.lines, None) by {
      assert ds[1..][1..] == ds[2..];
      assert FieldText(v, "name_var") == "Ann";
      assert RecordLine("name_var", "Ann") == "name_var?Ann";
    }
  }

  /**
   * Saving name_var = "Ann", active_var = true writes the lines
   * `name_var?Ann` and `active_var?true`; loading them into the controller
   * after its variables were reset to "" and false restores both.
   */
  lemma ExampleRoundTrip()
    ensures var v := map["name_var" := Str("Ann"), "active_var" := Bool(true)];
      && Saved(EXAMPLE.declared, v, "P") == SaveResult(["name_var?Ann", "active_var?true"], None)
      && Loaded(EXAMPLE, map["name_var" := Str(""), "active_var" := Bool(false)], [],
                ParseAll(["name_var?Ann", "active_var?true"]))
         == LoadResult(v, [], Exhausted)
  {
    var v := map["name_var" := Str("Ann"), "active_var" := Bool(true)];
    var w := map["name_var" := Str(""), "active_var" := Bool(false)];
    ExampleSaved(v);
    ExampleRestorable(v);
    LoadAfterSave(EXAMPLE, EXAMPLE.declared, v, w, [], "P");
    ExampleRestored(v, w);
  }

  /** The example's annotated fields are its two variables. */
  lemma ExampleTagged()
    ensures forall d | d in EXAMPLE.declared && "P" in d.tags :: d == EXAMPLE.declared[1] || d == EXAMPLE.declared[3]
  {
  }

  /** `name_var` comes back through the setter `name(String)`. */
  lemma ExampleNameRestorable(v: map<string, Value>)
    requires v == map["name_var" := Str("Ann"), "active_var" := Bool(true)]
    ensures Restorable(EXAMPLE, v, EXAMPLE.declared[1])
  {
    var d := EXAMPLE.declared[1];
    assert d == FieldDecl("name_var", StringType, {"P"}, true);
    assert SEPARATOR !in "name_var" && SEPARATOR !in "Ann";
    assert OneLine("name_var") && OneLine("Ann");
    assert v["name_var"] == Str("Ann");
    assert EXAMPLE.publicFields["name"] == TextLike;
    assert EXAMPLE.setters[("name", StringParam)] == Stores("name_var");
    ExampleNames();
    TextRestorable(EXAMPLE, v, d, "name", "Ann");
  }

  /** `active_var` comes back through the setter `active(boolean)`. */
  lemma ExampleActiveRestorable(v: map<string, Value>)
    requires v == map["name_var" := Str("Ann"), "active_var" := Bool(true)]
    ensures Restorable(EXAMPLE, v, EXAMPLE.declared[3])
  {
    assert SEPARATOR !in "active_var" && OneLine("active_var");
    ExampleNames();
  }

  /** Both example variables come back from their saved lines. */
  lemma ExampleRestorable(v: map<string, Value>)
    requires v == map["name_var" := Str("Ann"), "active_var" := Bool(true)]
    ensures forall d | d in EXAMPLE.declared && "P" in d.tags :: Restorable(EXAMPLE, v, d)
  {
    ExampleNameRestorable(v);
    ExampleActiveRestorable(v);
    ExampleTagged();
  }

  /** Restoring both example variables overwrites every variable of the reset state. */
  lemma ExampleRestored(v: map<string, Value>, w: map<string, Value>)
    requires v == map["name_var" := Str("Ann"), "active_var" := Bool(true)]
    requires w == map["name_var" := Str(""), "active_var" := Bool(false)]
    ensures AnnotatedNames(EXAMPLE.declared, "P") <= v.Keys
    ensures Restored(w, v, AnnotatedNames(EXAMPLE.declared, "P")) == v
  {
    var ds := EXAMPLE.declared;
    assert AnnotatedNames(ds, "P") == {"name_var", "active_var"} by {
      assert ds[1] in ds && ds[3] in ds;
    }
    assert w.Keys == v.Keys == {"name_var", "active_var"};
    RestoreEverything(w, v, {"name_var", "active_var"});
  }

  /** Clearing the example resets name_var to "" and active_var to false, prints nothing and returns normally. */
  lemma ExampleCleared(v: map<string, Value>)
    requires v == map["name_var" := Str("Ann"), "active_var" := Bool(true)]
    ensures Cleared(EXAMPLE, v, [], EXAMPLE.declared, "P")
         == ClearResult(map["name_var" := Str(""), "active_var" := Bool(false)], [], Normal)
  {
    var d0, d1 := FieldDecl("name", ClassType("TextField"), {}, true), FieldDecl("name_var", StringType, {"P"}, true);
    var d2, d3 := FieldDecl("active", ClassType("CheckBox"), {}, true), FieldDecl("active_var", BooleanType, {"P"}, true);
    var v1 := v["name_var" := Str("")];
    var v2 := v1["active_var" := Bool(false)];
    assert EXAMPLE.declared == [d0] + ([d1] + ([d2] + ([d3] + [])));
    assert Call(EXAMPLE, v, "name", StringParam, Str("")) == Some(v1);
    assert Call(EXAMPLE, v1, "active", BooleanParam, Bool(false)) == Some(v2);
    assert v2 == map["name_var" := Str(""), "active_var" := Bool(false)];
    ExampleNames();
    ClearedSkipsUntagged(EXAMPLE, v, [], d0, [d1] + ([d2] + ([d3] + [])), "P");
    ClearedResets(EXAMPLE, v, [], d1, [d2] + ([d3] + []), "P", "name");
    ClearedSkipsUntagged(EXAMPLE, v1, [], d2, [d3] + [], "P");
    ClearedResets(EXAMPLE, v1, [], d3, [], "P", "active");
  }
}
