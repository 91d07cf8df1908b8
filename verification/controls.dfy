/**
  The control registry: field control types keyed by name. The seven
  built-in controls come first, in a fixed order; the `acb_controls` filter
  may then add new controls or replace built-ins by name.
 */
module Controls {
  import opened Wrappers
  import opened OrderedMaps

  /** A PHP value, as returned by a setting's sanitize callable. */
  datatype PhpValue =
    | Null
    | Bool(b: bool)
    | Int(i: int)
    | Str(s: string)
    | Arr(entries: seq<(string, PhpValue)>)

  /**
    One setting a control declares. `sanitize` is `None` when the declared
    callable is not callable (`is_callable` fails).
   */
  datatype Setting = Setting(name: string, sanitize: Option<string -> PhpValue>)

  /** A field control type: its name, display label and declared settings, in order. */
  datatype Control = Control(name: string, labelText: string, settings: seq<Setting>)

  type Registry = OrderedMap<Control>

  /** Registry keys of the built-in controls, in registration order. */
  const BuiltinNames: seq<string> :=
    ["text", "textarea", "select", "toggle", "range", "checkbox", "radio"]

  /** The built-in registry, before the filter runs; `make(n)` is the control object for `n`. */
  function Builtins(make: string -> Control): (r: Registry)
    ensures Keys(r) == BuiltinNames
    ensures forall i :: 0 <= i < |r| ==> r[i].1 == make(r[i].0)
  {
    var r := seq(|BuiltinNames|, i requires 0 <= i < |BuiltinNames| => (BuiltinNames[i], make(BuiltinNames[i])));
    assert Keys(r) == BuiltinNames;
    r
  }

  /**
    `register_controls`: the built-ins, then the filter's registrations
    applied in order; a registration under an existing name replaces that
    control in place, a new name is appended.
   */
  function RegisterControls(make: string -> Control, registrations: OrderedMap<Control>): (r: Registry)
    ensures |r| >= |BuiltinNames| && Keys(r)[..|BuiltinNames|] == BuiltinNames
    ensures Distinct(Keys(r))
    ensures forall n :: n in Keys(r) <==> n in BuiltinNames || n in Keys(registrations)
    ensures forall n :: n in BuiltinNames && n !in Keys(registrations) ==> Get(r, n) == Some(make(n))
  {
    var base := Builtins(make);
    assert Distinct(Keys(base));
    forall n | n in BuiltinNames
      ensures Get(base, n) == Some(make(n))
    {
      GetAt(base, n);
      var i := IndexOf(Keys(base), n);
      assert base[i].1 == make(base[i].0);
    }
    InsertAll(base, registrations)
  }

  /**
    The array key PHP uses for a control name: an absent name is `null`,
    and `$controls[null]` reads the entry under "".
   */
  function RegistryKey(control: Option<string>): string {
    control.GetOr("")
  }

  /** `isset($controls[$name]) ? $controls[$name] : none`. */
  function Lookup(registry: Registry, control: Option<string>): (r: Option<Control>)
    ensures r.Some? <==> RegistryKey(control) in Keys(registry)
  {
    Get(registry, RegistryKey(control))
  }
}
