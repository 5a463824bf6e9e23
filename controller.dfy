/**
 * What reflection finds on a JavaFX controller class, written out as a table:
 * the declared fields in declaration order, the public fields with the kind
 * of control they hold, and the public one-argument methods (the setters).
 */
module Controllers {
  import opened Wrappers

  /** An annotation type; a field carries the annotations in its `tags`. */
  type Tag = string

  /** A stored field value: text, or a boolean flag. */
  datatype Value = Str(s: string) | Bool(b: bool)

  /** The declared type of a field, as clear dispatches on it. */
  datatype DeclType =
    | StringType
    | BooleanType                       // the primitive `boolean`
    | OtherPrimitive(name: string)      // int, double, char, ...
    | ClassType(simpleName: string)     // every other type, `Boolean` included

  /** The type of a public field, as load dispatches on it. */
  datatype Kind =
    | TextLike                          // TextField, TextArea, ChoiceBox
    | BoolLike                          // RadioButton, CheckBox
    | Other(simpleName: string)

  /** The parameter type a setter is looked up with. */
  datatype Param = StringParam | BooleanParam

  /** What invoking a setter does: store its argument in one field, or throw. */
  datatype Setter = Stores(target: string) | Rejects

  datatype FieldDecl = FieldDecl(name: string, typ: DeclType, tags: set<Tag>, accessible: bool)

  datatype ClassInfo = ClassInfo(
    declared: seq<FieldDecl>,
    publicFields: map<string, Kind>,
    setters: map<(string, Param), Setter>)

  /**
   * The table describes a compiled Java class: every field and method name is
   * a non-empty identifier. The table type itself admits an empty name, which
   * no Java class has. The table also leaves a public field's declared type
   * (`declared[i].typ`) independent of its kind (`publicFields[name]`),
   * although in Java they are one type: clear dispatches on the annotated
   * variable's declared type, load on the kind of the control it names.
   */
  predicate JavaNames(cls: ClassInfo)
  {
    && (forall i | 0 <= i < |cls.declared| :: cls.declared[i].name != "")
    && "" !in cls.publicFields
    && (forall p: Param :: ("", p) !in cls.setters)
  }

  /**
   * `getMethod(name, p)` then `invoke(c, arg)`: the new field values, or None
   * when no such method exists or its invocation throws. A call that works
   * stores its argument in the setter's one target field and changes no other.
   */
  function Call(cls: ClassInfo, values: map<string, Value>, name: string, p: Param, arg: Value)
    : (r: Option<map<string, Value>>)
    ensures r.Some? <==> (name, p) in cls.setters && cls.setters[(name, p)].Stores?
    ensures r.Some? ==> var t := cls.setters[(name, p)].target;
      && r.value.Keys == values.Keys + {t} && r.value[t] == arg
      && (forall n | n in values && n != t :: r.value[n] == values[n])
  {
    if (name, p) !in cls.setters then None
    else match cls.setters[(name, p)]
      case Stores(target) => Some(values[target := arg])
      case Rejects => None
  }

  /** A controller instance: its class, fixed, and the values of its fields. */
  class Controller {
    const cls: ClassInfo
    var values: map<string, Value>

    constructor (cls: ClassInfo, values: map<string, Value>)
      ensures this.cls == cls && this.values == values
    {
      this.cls := cls;
      this.values := values;
    }

    /** Invoke the setter `name` taking `p`; `ok` is false when the lookup or the call throws. */
    method Invoke(name: string, p: Param, arg: Value) returns (ok: bool)
      modifies this
      ensures ok <==> Call(cls, old(values), name, p, arg).Some?
      ensures ok ==> values == Call(cls, old(values), name, p, arg).value
      ensures !ok ==> values == old(values)
    {
      ok := (name, p) in cls.setters && cls.setters[(name, p)].Stores?;
      if ok {
        values := values[cls.setters[(name, p)].target := arg];
      }
    }
  }
}
