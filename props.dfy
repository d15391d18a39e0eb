/**
 * JSX props as finite maps from prop names to values. A spread
 * `{...a, ...b}` is the map union `a + b`, in which `b` wins for every
 * name both define; destructuring `{x, ...rest}` takes `x` out of the map.
 */
module Props {
  import opened Wrappers

  /** The values a prop can hold, as far as the components look at them. */
  datatype Value =
    | Text(s: string)
    | Number(n: int)
    | Flag(b: bool)
    | Undefined
    | Route(pathname: Option<string>)
    | Static

  type Props = map<string, Value>

  /** `props.name`: `undefined` when the prop is not given. */
  function Get(props: Props, name: string): (v: Value)
    ensures name !in props ==> v == Undefined
    ensures name in props ==> v == props[name]
  {
    if name in props then props[name] else Undefined
  }

  /** The `...rest` of a destructuring that names `taken`. */
  function Rest(props: Props, taken: set<string>): (r: Props)
    ensures r.Keys == props.Keys - taken
    ensures forall k :: k in r ==> r[k] == props[k]
  {
    map k | k in props && k !in taken :: props[k]
  }
}
