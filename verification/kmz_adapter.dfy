/** The KMZ adapter of main.js: the module-level `zip` slot, `getKMLData`
    (unzip, pick the KML entry, decode it) and `getKMLImage` (resolve an icon
    href against the current archive). The foreign calls are parameters:
    `unzipSync` is an `Unzip`, `TextDecoder.decode` a `Decode`, and an object
    URL is represented by the bytes it was made from. */
module KmzAdapter {
  import opened Wrappers
  import opened JsString
  import opened Archive

  /** The exceptions these functions can let escape. */
  datatype Error =
    | UnzipError(reason: string)  // thrown by `unzipSync` on a buffer it cannot read
    | TypeError                   // `key in zip` while `zip` is still `undefined`

  /** The module-level `let zip;`: `None` until the first successful unzip. */
  datatype State = State(zip: Option<Archive>)

  const Initial: State := State(None)

  /** A call that may write the slot: the slot afterwards, and the value
      returned or the exception thrown. */
  datatype Call<+T> = Call(state: State, result: Result<T, Error>)

  type Unzip = Bytes -> Result<Archive, Error>

  type Decode = Bytes -> string

  /** What `new Blob([zip[image]])` holds: an entry's bytes, or the string
      form of a member inherited from `Object.prototype`. */
  datatype Blob = EntryBlob(bytes: Bytes) | InheritedBlob(member: string)

  /** What `getKMLImage` hands back to the KML reader: the href itself, or an
      object URL over a blob. */
  datatype ImageUrl = Href(href: string) | ObjectUrl(blob: Blob)

  /** `/\.kml$/i.test(key)`. */
  predicate IsKmlName(key: string)
  {
    TestEndAnchoredIgnoreCase(".kml", key)
  }

  /** The regular expression accepts exactly the names whose last four
      characters are a dot and the letters k, m, l in either case. */
  lemma KmlNameCharacterization(key: string)
    ensures IsKmlName(key) <==>
              && |key| >= 4
              && key[|key| - 4] == '.'
              && key[|key| - 3] in {'k', 'K'}
              && key[|key| - 2] in {'m', 'M'}
              && key[|key| - 1] in {'l', 'L'}
  {
    EndAnchoredIsSuffix(".kml", key);
    if |key| >= 4 {
      var tail := key[|key| - 4..];
      assert tail[0] == key[|key| - 4] && tail[1] == key[|key| - 3];
      assert tail[2] == key[|key| - 2] && tail[3] == key[|key| - 1];
      if EqualsIgnoreCase(tail, ".kml") {
        assert Canonicalize(tail[0]) == Canonicalize('.');
        assert Canonicalize(tail[1]) == Canonicalize('k');
        assert Canonicalize(tail[2]) == Canonicalize('m');
        assert Canonicalize(tail[3]) == Canonicalize('l');
      }
    }
  }

  /** Lines 166-170 after the unzip: take the first key the regular
      expression accepts, test it with `in` (so a miss tests the key
      "undefined") and return that entry's bytes, or `None` for `null`. */
  function SelectKml(a: Archive): (r: Option<Bytes>)
    ensures r.None? <==>
              (forall i :: 0 <= i < |a| ==> !IsKmlName(a[i].name)) && !HasOwn(a, "undefined")
    ensures forall i :: 0 <= i < |a| && IsKmlName(a[i].name)
                        && (forall j :: 0 <= j < i ==> !IsKmlName(a[j].name))
                        ==> r == Some(a[i].bytes)
  {
    var found := Find(Keys(a), IsKmlName);
    var key := PropertyKey(found);
    assert "undefined" !in InheritedNames;
    if !JsIn(a, key) then None else Lookup(a, key)
  }

  /** With no KML-named key, selection is the lookup of the key "undefined". */
  lemma NoKmlNameSelectsUndefined(a: Archive)
    requires forall i :: 0 <= i < |a| ==> !IsKmlName(a[i].name)
    ensures SelectKml(a) == Lookup(a, "undefined")
  {
  }

  /** `getKMLData(buffer)`. The slot is overwritten as soon as `unzipSync`
      returns, before the KML entry is looked for; when it throws, the
      assignment never happens. */
  function GetKMLData(st: State, buffer: Bytes, unzip: Unzip, decode: Decode): (c: Call<Option<string>>)
    ensures unzip(buffer).Failure? ==> c.state == st && c.result == Failure(unzip(buffer).error)
    ensures unzip(buffer).Success? ==>
              && c.state == State(Some(unzip(buffer).value))
              && c.result.Success?
              && (c.result.value.None? <==> SelectKml(unzip(buffer).value).None?)
              && (c.result.value.Some? ==>
                    c.result.value.value == decode(SelectKml(unzip(buffer).value).value))
  {
    match unzip(buffer)
    case Failure(e) => Call(st, Failure(e))
    case Success(a) =>
      var text := match SelectKml(a)
                  case None => None
                  case Some(b) => Some(decode(b));
      Call(State(Some(a)), Success(text))
  }

  /** The archive key an href is looked up under: the href cut at one past
      the last '/' of the page URL, or `None` when the page URL has no '/'. */
  function ImageKey(pageUrl: string, href: string): (k: Option<string>)
    ensures k.None? <==> '/' !in pageUrl
    ensures k.Some? ==> IsSuffix(k.value, href)
  {
    var index := LastIndexOf(pageUrl, '/');
    if index == -1 then None else Some(Slice(href, index + 1))
  }

  /** `getKMLImage(href)` with the own-entry test the function evidently
      intends (see `GetKMLImageAsWritten` for the `in` test main.js uses).
      It only reads the slot. */
  function GetKMLImage(st: State, pageUrl: string, href: string): (r: Result<ImageUrl, Error>)
    ensures r.Failure? <==> '/' in pageUrl && st.zip.None?
    ensures r.Failure? ==> r.error == TypeError
    ensures '/' !in pageUrl ==> r == Success(Href(href))
    ensures r.Success? && r.value.Href? ==> r.value.href == href
    ensures r.Success? && r.value.ObjectUrl? ==>
              && st.zip.Some?
              && r.value.blob.EntryBlob?
              && exists i :: 0 <= i < |st.zip.value|
                             && st.zip.value[i].bytes == r.value.blob.bytes
                             && IsSuffix(st.zip.value[i].name, href)
  {
    match ImageKey(pageUrl, href)
    case None => Success(Href(href))
    case Some(image) =>
      match st.zip
      case None => Failure(TypeError)
      case Some(a) =>
        match Lookup(a, image)
        case None => Success(Href(href))
        case Some(b) => Success(ObjectUrl(EntryBlob(b)))
  }

  /** `getKMLImage(href)` exactly as main.js writes it: `image in zip` also
      holds for the names `zip` inherits from `Object.prototype`, and then
      the blob is built from that inherited member. */
  function GetKMLImageAsWritten(st: State, pageUrl: string, href: string): (r: Result<ImageUrl, Error>)
    ensures r.Failure? <==> '/' in pageUrl && st.zip.None?
    ensures r.Failure? ==> r.error == TypeError
    ensures '/' !in pageUrl ==> r == Success(Href(href))
    ensures r.Success? && r.value.Href? ==> r.value.href == href
    ensures r.Success? && r.value.ObjectUrl? && r.value.blob.EntryBlob? ==>
              && st.zip.Some?
              && exists i :: 0 <= i < |st.zip.value|
                             && st.zip.value[i].bytes == r.value.blob.bytes
                             && IsSuffix(st.zip.value[i].name, href)
    ensures r.Success? && r.value.ObjectUrl? && r.value.blob.InheritedBlob? ==>
              && r.value.blob.member in InheritedNames
              && IsSuffix(r.value.blob.member, href)
  {
    match ImageKey(pageUrl, href)
    case None => Success(Href(href))
    case Some(image) =>
      match st.zip
      case None => Failure(TypeError)
      case Some(a) =>
        if !JsIn(a, image) then Success(Href(href))
        else match Lookup(a, image)
          case Some(b) => Success(ObjectUrl(EntryBlob(b)))
          case None => Success(ObjectUrl(InheritedBlob(image)))
  }
}
