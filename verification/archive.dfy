/** The unzipped KMZ archive as the adapter sees it: the object `unzipSync`
    returns, one own property per distinct entry name, listed in `Object.keys`
    order. Two ZIP entries with the same name leave one key, and an entry
    named `__proto__` leaves none; both are fixed by `unzipSync`, which is a
    parameter of the model. */
module Archive {
  import opened Wrappers

  newtype byte = x: int | 0 <= x < 256

  type Bytes = seq<byte>

  /** One ZIP entry: its path inside the archive and its inflated content. */
  datatype Entry = Entry(name: string, bytes: Bytes)

  /** No name occurs twice: the entries are the keys of one object. */
  predicate UniqueNames(a: seq<Entry>)
  {
    forall i, j :: 0 <= i < j < |a| ==> a[i].name != a[j].name
  }

  type Archive = a: seq<Entry> | UniqueNames(a) witness []

  /** `Object.keys(zip)`. */
  function Keys(a: Archive): (ks: seq<string>)
    ensures |ks| == |a|
    ensures forall i :: 0 <= i < |a| ==> ks[i] == a[i].name
  {
    seq(|a|, i requires 0 <= i < |a| => a[i].name)
  }

  /** The own property `zip[name]`, or `None` when there is no such entry. */
  function Lookup(a: Archive, name: string): (r: Option<Bytes>)
    ensures r.None? <==> forall i :: 0 <= i < |a| ==> a[i].name != name
    ensures forall i :: 0 <= i < |a| && a[i].name == name ==> r == Some(a[i].bytes)
  {
    if |a| == 0 then None
    else if a[0].name == name then Some(a[0].bytes)
    else Lookup(a[1..], name)
  }

  /** `Object.prototype.hasOwnProperty.call(zip, name)`. */
  predicate HasOwn(a: Archive, name: string)
  {
    Lookup(a, name).Some?
  }

  /** The property names every plain object inherits from `Object.prototype`
      (the properties of the Object prototype object in ECMA-262, with the
      `__proto__` and getter/setter helpers of its Annex B). `unzipSync` builds
      the archive as an object literal, so these are on its prototype chain. */
  const InheritedNames: set<string> :=
    {"constructor", "hasOwnProperty", "isPrototypeOf", "propertyIsEnumerable",
     "toLocaleString", "toString", "valueOf", "__proto__",
     "__defineGetter__", "__defineSetter__", "__lookupGetter__", "__lookupSetter__"}

  /** The `in` operator: an own entry, or a name found up the prototype chain. */
  predicate JsIn(a: Archive, name: string)
    ensures JsIn(a, name) <==> (exists i :: 0 <= i < |a| && a[i].name == name) || name in InheritedNames
  {
    HasOwn(a, name) || name in InheritedNames
  }
}
