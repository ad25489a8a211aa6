/** The `KMZ` format of main.js: a KML reader that takes a binary buffer,
    runs `getKMLData` on it and hands the result to the inherited KML reader,
    whose icon hrefs go through `getKMLImage`. The inherited reader is a
    parameter: it receives the KML text (or `None` for `null`), the caller's
    read options and the icon resolver it will call. */
module KmzFormat {
  import opened Wrappers
  import opened Archive
  import opened KmzAdapter

  /** The input kinds a feature format can declare to a drop handler. */
  datatype SourceType = ArrayBuffer | Json | Text | Xml

  /** `getType()`: the format asks for the raw bytes, never for text. */
  function GetType(): (t: SourceType)
    ensures t == ArrayBuffer && t != Text
  {
    ArrayBuffer
  }

  /** The `iconUrlFunction` the constructor installs: `getKMLImage`, which
      reads the slot and the page URL at the moment the reader calls it.
      `ResolveAsWritten` is the function main.js installs, with its `in`
      test; `Resolve` is the own-entry reading of it. */
  datatype IconResolver = IconResolver(state: State, pageUrl: string)
  {
    function ResolveAsWritten(href: string): Result<ImageUrl, Error>
    {
      GetKMLImageAsWritten(state, pageUrl, href)
    }

    function Resolve(href: string): Result<ImageUrl, Error>
    {
      GetKMLImage(state, pageUrl, href)
    }
  }

  /** `readFeature(source, options)`: decode, then delegate. An exception
      from the unzip escapes before the inherited reader is reached. */
  function ReadFeature<O, F>(st: State, pageUrl: string, source: Bytes, options: O,
                             unzip: Unzip, decode: Decode,
                             readKml: (Option<string>, O, IconResolver) -> F): (c: Call<F>)
    ensures c.state == GetKMLData(st, source, unzip, decode).state
    ensures var d := GetKMLData(st, source, unzip, decode);
            && (d.result.Failure? ==> c.result == Failure(d.result.error))
            && (d.result.Success? ==>
                  && c.state.zip.Some?
                  && c.result == Success(readKml(d.result.value, options, IconResolver(c.state, pageUrl))))
  {
    var d := GetKMLData(st, source, unzip, decode);
    match d.result
    case Failure(e) => Call(d.state, Failure(e))
    case Success(kml) => Call(d.state, Success(readKml(kml, options, IconResolver(d.state, pageUrl))))
  }

  /** `readFeatures(source, options)`: the same decode, delegated to the
      inherited multi-feature reader. */
  function ReadFeatures<O, F>(st: State, pageUrl: string, source: Bytes, options: O,
                              unzip: Unzip, decode: Decode,
                              readKmlAll: (Option<string>, O, IconResolver) -> seq<F>): (c: Call<seq<F>>)
    ensures c.state == GetKMLData(st, source, unzip, decode).state
    ensures var d := GetKMLData(st, source, unzip, decode);
            && (d.result.Failure? ==> c.result == Failure(d.result.error))
            && (d.result.Success? ==>
                  && c.state.zip.Some?
                  && c.result == Success(readKmlAll(d.result.value, options, IconResolver(c.state, pageUrl))))
  {
    var d := GetKMLData(st, source, unzip, decode);
    match d.result
    case Failure(e) => Call(d.state, Failure(e))
    case Success(kml) => Call(d.state, Success(readKmlAll(kml, options, IconResolver(d.state, pageUrl))))
  }

  /** Once the inherited reader runs, every icon lookup it makes succeeds:
      the slot it reads holds the archive just unzipped. */
  lemma ResolverNeverThrows<O, F>(st: State, pageUrl: string, source: Bytes, options: O,
                                  unzip: Unzip, decode: Decode,
                                  readKml: (Option<string>, O, IconResolver) -> F, href: string)
    requires ReadFeature(st, pageUrl, source, options, unzip, decode, readKml).result.Success?
    ensures var c := ReadFeature(st, pageUrl, source, options, unzip, decode, readKml);
            && c.state.zip == Some(unzip(source).value)
            && IconResolver(c.state, pageUrl).ResolveAsWritten(href).Success?
            && IconResolver(c.state, pageUrl).Resolve(href).Success?
  {
  }

  /** A one-feature and a many-feature read of the same buffer hand their
      readers the same text and leave the same slot. */
  lemma ReadersSeeSameInput<O, F>(st: State, pageUrl: string, source: Bytes, options: O,
                                  unzip: Unzip, decode: Decode,
                                  readKml: (Option<string>, O, IconResolver) -> F,
                                  readKmlAll: (Option<string>, O, IconResolver) -> seq<F>)
    requires unzip(source).Success?
    ensures var c1 := ReadFeature(st, pageUrl, source, options, unzip, decode, readKml);
            var c2 := ReadFeatures(st, pageUrl, source, options, unzip, decode, readKmlAll);
            var text := GetKMLData(st, source, unzip, decode).result.value;
            && c1.state == c2.state
            && c1.result == Success(readKml(text, options, IconResolver(c1.state, pageUrl)))
            && c2.result == Success(readKmlAll(text, options, IconResolver(c2.state, pageUrl)))
  {
  }
}
