/**
 * `DOption` (biosim-core/src/util.rs): an option type for `no_std` shader
 * code, kept as a presence flag beside a payload that is always there.
 */
module DOptions {

  import opened Wrappers

  datatype DOption<T> = DOption(present: bool, item: T)

  /** `DOption::some`: present, carrying the item. */
  function Some<T>(item: T): (d: DOption<T>)
    ensures d.present && d.item == item
  {
    DOption(true, item)
  }

  /** `DOption::none`: absent, with the type's default value as placeholder payload. */
  function None<T>(defaultValue: T): (d: DOption<T>)
    ensures !d.present && d.item == defaultValue
  {
    DOption(false, defaultValue)
  }

  /** `unwrap_or_default`: the item when present, otherwise the fallback, whatever the payload. */
  function UnwrapOrDefault<T>(d: DOption<T>, fallback: T): (r: T)
    ensures d.present ==> r == d.item
    ensures !d.present ==> r == fallback
  {
    match d
    case DOption(true, item) => item
    case DOption(false, _) => fallback
  }

  /** The ordinary option a flag-and-payload value stands for: the payload of an absent one is ignored. */
  function ToOption<T>(d: DOption<T>): (o: Option<T>)
    ensures o.Some? <==> d.present
  {
    if d.present then Option.Some(d.item) else Option.None
  }

  /** `unwrap_or_default` agrees with the ordinary option's meaning. */
  lemma UnwrapMatchesOption<T>(d: DOption<T>, fallback: T)
    ensures UnwrapOrDefault(d, fallback) == (match ToOption(d) case Some(x) => x case None => fallback)
  {
  }

  /** `some(x).unwrap_or_default(d) == x` and `none().unwrap_or_default(d) == d`. */
  lemma UnwrapConstructors<T>(x: T, defaultValue: T, fallback: T)
    ensures UnwrapOrDefault(Some(x), fallback) == x
    ensures UnwrapOrDefault(None(defaultValue), fallback) == fallback
  {
  }

  /** Two absent values with different payloads cannot be told apart by `unwrap_or_default`. */
  lemma AbsentPayloadIgnored<T>(a: DOption<T>, b: DOption<T>, fallback: T)
    requires !a.present && !b.present
    ensures UnwrapOrDefault(a, fallback) == UnwrapOrDefault(b, fallback)
    ensures ToOption(a) == ToOption(b)
  {
  }
}
