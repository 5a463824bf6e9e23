# Profile engine, modelled and verified in Dafny

`Profile.java` keeps named "profiles" of a JavaFX controller. A profile is
the set of controller fields that carry one annotation.

- `save` writes every annotated field to a text file, one `name?value` line
  per field, in declaration order. The file is `filePath + fileName + ".txt"`.
- `load` reads such a file line by line. For each line it:
  - cuts the line at `?`;
  - shortens the name at its first `_` (`name_var` becomes `name`), which is
    the naming convention linking an instance variable to its control;
  - looks up the public control of that name;
  - hands the value to the setter of the same name, as a String for text
    controls or as a boolean for check boxes and radio buttons.
- `clear` hands every annotated field's setter the default of the field's
  type: `""` for String and the other non-boolean primitives, `false` for a
  boolean.

The model replaces reflection with an explicit table, `Controllers.ClassInfo`:

- the declared fields in order, each with a name, a declared type, its
  annotations and whether it can be read;
- the public fields with the kind of control they hold;
- the setters, keyed by name and parameter type, each of which either stores
  its argument in one field or throws.

A `Controllers.Controller` object holds the field values and is updated in
place through its setters.

Files and the error stream are two objects the methods are handed:

- a `Profile.Disk`, which maps each path to its lines;
- a `Profile.ErrStream`, which is an append-only log of printed messages and
  stack traces.

`Profile.Save`, `Profile.Load` and `Profile.Clear` are imperative loops.
Each is proved to compute one function of module `ProfileSpec`: `Saved`,
`Loaded` or `Cleared`. Module `ProfileProperties` then proves what those
functions mean:

- the lines save writes;
- where load stops and what it leaves alone;
- the save/load round trip;
- what clear resets, and that clearing twice is clearing once;
- a worked example with a two-control controller.

The parsing is pure. Module `JavaStrings` models Java's `String.split` with
the default limit, which drops trailing empty pieces. Module `ProfileFormat`
covers the line format, the name rule, the boolean rule and the file path.

Behaviour of the code worth knowing:

- **Extra pieces.** A load line does not have to split into exactly two
  pieces. Any line with at least two pieces is accepted, and the pieces after
  the second are discarded (`ProfileFormat.ParseDiscardsRest`).
- **No annotation test in load.** A line is malformed when its canonical name
  is not a public field. Load never checks whether that field carries the
  annotation (`ProfileProperties.LoadAppliesLine`).
- **What idempotence covers.** A second clear leaves the same values and ends
  the same way. It does, however, print again every stack trace that the
  first clear printed (`ProfileProperties.ClearIdempotent`).
- **Type of clear's exception.** An annotated field of a type without a
  default does not always raise the unsupported-type exception. When no
  public field carries the canonical name, the message is built from a null
  field, so clear throws a null pointer exception instead
  (`ProfileSpec.Unsupported`).

## Model

| member | source | states |
|---|---|---|
| JavaStrings.PrefixBefore | Profile.java:102 | the result is a prefix of the string without the separator, and it is followed by the separator or is the whole string |
| JavaStrings.PiecesShape | Profile.java:101 | cutting at every separator gives at least one piece; the first piece is the text before the first separator; there are two or more pieces exactly when the separator occurs; no piece holds the separator |
| JavaStrings.DropTrailingEmpty | Profile.java:101 | the result is a prefix of the list, it does not end in an empty string, and everything dropped is empty |
| JavaStrings.JoinPieces | Profile.java:101 | joining the pieces with the separator gives the string back |
| JavaStrings.PiecesJoin | Profile.java:101 | cutting a join of pieces that have no separator gives those pieces back |
| JavaStrings.PiecesAllEmpty | Profile.java:102 | every piece is empty exactly when the string is separators only |
| JavaStrings.SplitFirst | Profile.java:102 | the first element of a non-empty split is the text before the first separator |
| JavaStrings.SplitEmpty | Profile.java:102 | a split is empty exactly when the string is non-empty and separators only, which is when `split("_")[0]` throws |
| JavaStrings.Split | Profile.java:101-102 | `s.split(sep)` is `s` alone when the separator does not occur; otherwise it is the cut at every separator with the trailing empty pieces removed: a prefix of that cut, ending in a non-empty piece, with only empty pieces dropped |
| JavaStrings.PiecesAfter | Profile.java:101 | cutting `a?b`, where `a` has no separator, gives `a` and then the pieces of `b` |
| ProfileFormat.DataFilePath | Profile.java:57 | the path is the folder text, then the file name, then `.txt`, with no separator inserted |
| ProfileFormat.RecordLine | Profile.java:66 | the saved line is the field's full declared name, then `?`, then the value text |
| ProfileFormat.CanonicalName | Profile.java:102 | there is no canonical name exactly for a non-empty name of underscores only; otherwise it is the text before the first `_` |
| ProfileFormat.CanonicalOfSuffixed | Profile.java:158 | a variable `base_suffix`, where `base` is non-empty and has no `_`, belongs to the setter `base` |
| ProfileFormat.ParseLine | Profile.java:101-103 | a parsed field name has neither `_` nor `?`, and a parsed value has no `?` |
| ProfileFormat.ParseMissingPiece | Profile.java:101-103 | parsing fails (`ParseLine` is None, because `data[1]` or `split("_")[0]` throws) exactly when the line's split has fewer than two pieces or its first piece has no canonical name; a line that parses but names no public field is malformed too, see `ProfileSpec.Malformed` |
| ProfileFormat.ParseNoSeparator | Profile.java:101-103 | a line without `?`, such as the tail of a value cut at a line break, fails to parse (`data[1]` throws) |
| ProfileFormat.ParseAllCons | Profile.java:98 | a file is parsed line by line, in file order |
| ProfileFormat.EncodeFlag | Profile.java:66 | a saved boolean is the text `true` or `false`, and it is `true` exactly for true |
| ProfileFormat.DecodeFlag | Profile.java:123 | a value decodes to true exactly when it is the text a saved `true` has |
| ProfileFormat.FlagRoundTrip | Profile.java:123 | a saved boolean decodes back to itself |
| ProfileFormat.DecodeFlagExact | Profile.java:123 | the decoding is case-sensitive and exact: `True`, `TRUE`, `1` and the empty text decode to false |
| ProfileFormat.PiecesOfRecordLine | Profile.java:66 | the saved line of a name and text without `?` cuts into exactly that name and text |
| ProfileFormat.ParseBySplit | Profile.java:101-103 | a line whose split has two or more pieces parses to the canonical form of the first piece and to the second piece |
| ProfileFormat.ParseRecordLine | Profile.java:101-103 | round trip of one line: parsing the saved line of a name and a non-empty text, neither holding `?`, gives the name's canonical form and exactly that text |
| ProfileFormat.ParseEmptyValue | Profile.java:101-103 | a field saved with an empty value gives a malformed line |
| ProfileFormat.ParseDoubledSeparator | Profile.java:101-103 | a line `name??` is malformed, because both trailing empty pieces are dropped |
| ProfileFormat.ParseDiscardsRest | Profile.java:101-103 | in `name?text?rest` with a non-empty `text` free of `?`, the value is `text`, and whatever follows the second `?` is ignored |
| Controllers.Call | Profile.java:113-114 | a setter call works exactly when the setter exists and does not throw; a call that works stores its argument in the setter's target field and leaves every other field as it was |
| Controllers.Controller.Invoke | Profile.java:113-114 | the call succeeds exactly when the setter exists and does not throw; on success the field values are what the setter stores, otherwise they are unchanged |
| ProfileSpec.FieldText | Profile.java:66 | the text of a field: `null` for a field holding null, the string itself for text, and for a boolean `String.valueOf` of it (`true` or `false`), which decodes back to it |
| ProfileSpec.Saved | Profile.java:60-68 | the lines of save, one per annotated field in declaration order, and the first annotated field that cannot be read; never more lines than fields |
| ProfileSpec.SavedAppend | Profile.java:63-68 | saving a concatenation of field lists saves the second list only when the first did not fail, and appends its lines |
| ProfileSpec.LoadArg | Profile.java:111-127 | text controls get the String setter and the value unchanged; check boxes and radio buttons get the boolean setter and the decoded flag; any other kind is unsupported |
| ProfileSpec.Malformed | Profile.java:101-108 | a line is malformed when a piece is missing or its canonical name is not a public field; for a table of a real Java class an empty canonical name is always malformed |
| ProfileSpec.LineStep | Profile.java:100-135 | one line halts load exactly when it is malformed; it raises with the simple name of an unsupported control; otherwise it prints nothing, or it leaves the values and prints a stack trace and the general error |
| ProfileSpec.Loaded | Profile.java:98-137 | the loop of load over the parsed lines; what was printed before stays at the head of the error stream |
| ProfileSpec.LoadedAppend | Profile.java:98-137 | loading a concatenation loads the second part, from where the first left off, only when the first ran to its end |
| ProfileSpec.DefaultArg | Profile.java:160-182 | only class types lack a default; booleans get the boolean setter and `false`; String and the other primitives get the String setter and `""` |
| ProfileSpec.Unsupported | Profile.java:184-191 | an annotated field of a type without a default always throws and leaves the values as they were; it prints nothing, or only the stack trace of the failed lookup of the setter's name |
| ProfileSpec.Cleared | Profile.java:156-194 | the loop of clear over the declared fields; what was printed before stays at the head of the error stream |
| ProfileSpec.ClearedAppend | Profile.java:156-194 | clearing a concatenation clears the second part, from where the first left off, only when the first did not throw |
| Profile.Disk.Create | Profile.java:58 | opening a writer creates the file, or empties the one that is there |
| Profile.Disk.WriteLine | Profile.java:66 | a write appends one line to the file |
| Profile.ErrStream.Emit | Profile.java:106 | printing appends one entry to the error stream |
| Profile.SavedSnoc | Profile.java:63-67 | one more field of save's loop is skipped when not annotated, fails when not readable, and otherwise adds its line |
| Profile.SavedStopped | Profile.java:66 | once save has failed at a field, the fields after it change nothing |
| Profile.Save | Profile.java:56-70 | an unwritable path throws and changes no file; otherwise the file `filePath + fileName + ".txt"` holds exactly the lines `Saved` gives, and save throws at the first annotated field it cannot read |
| Profile.Load | Profile.java:86-139 | a missing file throws and changes nothing; otherwise the field values and the error stream are those `Loaded` gives for the parsed lines, and load throws exactly when `Loaded` ends on an unsupported type |
| Profile.LoadLine | Profile.java:100-108 | a malformed line leaves the values as they are, prints the general error and halts; any other line has the effect of one line step |
| Profile.ApplyLine | Profile.java:110-135 | a line naming a public field calls its setter with the decoded value and reports a failed call with a stack trace and the general error; an unsupported kind raises its type name and changes nothing |
| Profile.Clear | Profile.java:150-195 | the field values, the error stream and the outcome are those `Cleared` gives for the declared fields |
| ProfileProperties.AnnotatedMembers | Profile.java:64 | the fields save and clear visit are exactly the declared fields carrying the annotation |
| ProfileProperties.SavedLines | Profile.java:60-68 | save writes one `name?value` line per annotated field, in declaration order, with the field's full declared name; on failure it stops at the first annotated field it cannot read |
| ProfileProperties.SaveFailsIffInaccessible | Profile.java:64-66 | save fails exactly when some annotated field cannot be read |
| ProfileProperties.LoadedAppendsToStream | Profile.java:98-137 | load only appends to the error stream: the values, the end and the entries it prints do not depend on what was printed before |
| ProfileProperties.HaltedLogEndsWithError | Profile.java:105-107 | a load that broke off printed the general error last |
| ProfileProperties.LoadStopsAtMalformed | Profile.java:100-108 | at a malformed line load prints the general error and stops; the effects of the earlier lines remain, and no later line is applied |
| ProfileProperties.LoadRaisesOnOtherKind | Profile.java:133-135 | a line naming a control of an unsupported kind throws there, keeping the effects of the earlier lines |
| ProfileProperties.LoadContinuesAfterSetterFailure | Profile.java:112-131 | a missing or throwing setter is reported with a stack trace and the general error, and load goes on with the next line, values unchanged |
| ProfileProperties.LoadAppliesLine | Profile.java:104-114 | a line naming any public field of a supported kind, annotated or not, is handed to its setter, and load goes on from the values the setter left |
| ProfileProperties.LoadTouchesOnlyTargets | Profile.java:98-137 | load changes only fields that some setter named by a line of the file stores into |
| ProfileProperties.LoadSavedLine | Profile.java:101-127 | loading the line saved for a restorable field stores the field's saved value back and prints nothing |
| ProfileProperties.LoadSavedStep | Profile.java:98-137 | loading a saved file stores the first saved field back, then loads the rest |
| ProfileProperties.LoadAfterSave | Profile.java:56-137 | round trip: loading the file save wrote, into any state, restores every annotated field to its saved value, keeps the other fields, prints nothing and reads to the end |
| ProfileProperties.LoadAfterSaveChangesNothing | Profile.java:56-137 | loading right after saving, from the same state, changes nothing and prints nothing |
| ProfileProperties.TextRestorable | Profile.java:111-114 | a readable text variable whose control's String setter stores into it, whose name has no `?` or line break, and whose value is non-empty without `?` or a line break, comes back through its saved line |
| ProfileProperties.ClearedAppendsToStream | Profile.java:156-194 | clear only appends to the error stream, and what was printed before does not change its values or its outcome |
| ProfileProperties.ClearedKeepsValues | Profile.java:156-194 | clear never reads field values: it overwrites the same fields with the same defaults, prints the same and ends the same, whatever the fields held |
| ProfileProperties.ClearedOverrides | Profile.java:156-194 | clear's effect is the starting values overridden by a fixed set of defaults, with a fixed list of entries printed after the earlier ones |
| ProfileProperties.ClearIdempotent | Profile.java:156-194 | clearing twice leaves the same values and outcome as clearing once; the second clear prints again what the first printed |
| ProfileProperties.ClearSetsDefaults | Profile.java:156-182 | when every annotated field's setter stores into it and the names are distinct, clear returns normally, prints nothing, leaves each annotated field at its type's default and changes no other field |
| ProfileProperties.ClearAbortsAt | Profile.java:184-191 | an annotated field of underscores only, or of a type without a default, makes clear throw there; the fields before it stay cleared and the fields after it are untouched |
| ProfileProperties.ClearedSkipsUntagged | Profile.java:157 | clear skips a field without the annotation |
| ProfileProperties.ClearedResets | Profile.java:158-182 | an annotated field of a supported type has its type's default passed to the setter named by its canonical name |
| ProfileProperties.ClearContinuesAfterSetterFailure | Profile.java:164-166 | a missing or throwing setter is reported with a stack trace, and clear goes on with the next field |
| ProfileProperties.ExampleNames | Profile.java:158 | `name_var` and `active_var` are handled by the setters `name` and `active` |
| ProfileProperties.ExampleSaved | Profile.java:63-67 | saving `name_var = "Ann"` and `active_var = true` writes `name_var?Ann` and then `active_var?true` |
| ProfileProperties.ExampleRoundTrip | Profile.java:56-137 | those two lines, loaded into the controller reset to `""` and `false`, restore both variables with nothing printed |
| ProfileProperties.ExampleTagged | Profile.java:64 | the example's annotated fields are its two variables |
| ProfileProperties.ExampleNameRestorable | Profile.java:111-114 | `name_var` comes back through `name(String)` |
| ProfileProperties.ExampleActiveRestorable | Profile.java:120-127 | `active_var` comes back through `active(boolean)` |
| ProfileProperties.ExampleRestorable | Profile.java:110-131 | both example variables come back from their saved lines |
| ProfileProperties.ExampleRestored | Profile.java:98-137 | restoring both variables overwrites every variable of the reset state |
| ProfileProperties.ExampleCleared | Profile.java:150-195 | clearing the example sets `name_var` to `""` and `active_var` to `false`, prints nothing and returns normally |

## Left out

- `SaveDialogSample.java` is not part of this model. It is dialog and layout code for the user interface.
- JavaFX controls are not modelled. A control is a kind in the class table, and a setter's effect on the screen is the value it stores.
- Reflection is replaced by the class table: the order `getDeclaredFields` returns, annotation casts, and method lookup. The model takes the declared fields in the table's order.
- Values are text or booleans. Any other field value's `toString` is not modelled. A field that holds null prints as `null` (`ProfileSpec.FieldText`).
- Files are sequences of lines, and a line is written without its `\n`. The model does not cover how `readLine` treats `\r` and `\r\n`, or a value that itself contains a line break.
- Character encoding and write errors are not modelled. `FileWriter` and `FileReader` use the platform's default charset, which writes a character it cannot encode as `?`. A value holding such a character then no longer round-trips, since `name_var?名` may come back as the malformed `name_var??`. An `IOException` from `write` or `close` during save is not modelled either.
- Profile.Save: after an access failure the file holds the lines written before that field. In the source the buffered writer is never closed on that path, so part or all of those lines may never reach the disk.
- Profile.Load: the reader left open when load throws is not modelled. Neither are I/O errors while reading a file that exists.
- The class table does not itself require Java identifiers, so it admits an empty field or setter name that no Java class has. `Controllers.JavaNames` states the rule, and `ProfileSpec.Malformed` relies on it for the claim that an empty canonical name is malformed. The table also does not tie a public field's declared type to its kind. Clear dispatches on the annotated variable's declared type, load on the kind of the control it names, and the table leaves the two independent, so it admits combinations no Java class has.
- Exceptions are reduced to their kind: which field or type they name. Exception classes, messages and stack trace contents are not modelled. A printed stack trace is an entry naming the setter or field involved.
- Controllers.Controller.Invoke: a setter stores its argument in one field or throws before changing anything. A setter that changes several fields, or partly updates before throwing, is not modelled.
- ProfileProperties.LoadAfterSave: the round trip is proved only for fields that can be restored (`ProfileProperties.Restorable`). Such a field has a name without `?` or a line break, a non-null value, and a text value that is non-empty and has neither `?` nor a line break (`\n` or `\r`; `readLine` would cut the saved line in two). An empty value makes a malformed line (`ProfileFormat.ParseEmptyValue`), and load then stops at that line.
- ProfileProperties.ClearSetsDefaults: stated only for controllers whose annotated fields follow the naming convention and have distinct names. Without the convention, `ProfileProperties.ClearedOverrides` and `ProfileProperties.ClearIdempotent` still hold.
