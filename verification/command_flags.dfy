/**
 * The parsed command-line flags of a push command, in the order
 * `Object.keys(this.flags)` lists them, and how a flag name becomes a switch.
 */
module CommandFlags {
  import opened Wrappers

  /** A flag's parsed value: a boolean switch or a text value. */
  datatype FlagValue = Bool(b: bool) | Text(s: string)

  datatype Flag = Flag(name: string, value: FlagValue)

  /** How a value is written into the argument list of the wrapped command. */
  function Render(v: FlagValue): string {
    match v
    case Bool(b) => if b then "true" else "false"
    case Text(s) => s
  }

  /** `(flag.length > 1 ? '--' : '-') + flag`. */
  function Switch(name: string): (r: string)
    ensures |name| > 1 ==> r == "--" + name
    ensures |name| <= 1 ==> r == "-" + name
  {
    (if |name| > 1 then "--" else "-") + name
  }

  /** `this.flags[name]`: the value of the first flag called `name`. */
  function Lookup(flags: seq<Flag>, name: string): (r: Option<FlagValue>)
    ensures r.None? <==> forall k :: 0 <= k < |flags| ==> flags[k].name != name
    ensures r.Some? ==> Flag(name, r.value) in flags
  {
    if flags == [] then None
    else if flags[0].name == name then Some(flags[0].value)
    else Lookup(flags[1..], name)
  }

  /** JavaScript truthiness of an optional string: set and not empty. */
  predicate Truthy(o: Option<string>) {
    o.Some? && o.value != ""
  }
}
