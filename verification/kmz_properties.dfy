/** Properties of the KMZ adapter that relate several calls or single out
    particular archives and page URLs. */
module KmzProperties {
  import opened Wrappers
  import opened JsString
  import opened Archive
  import opened KmzAdapter

  /** The suffix test is case-insensitive and anchored at the very end. */
  lemma KmlNameExamples()
    ensures IsKmlName("doc.kml") && IsKmlName("DOC.KML") && IsKmlName("x.Kml")
    ensures !IsKmlName("a.kml.png") && !IsKmlName("kml") && !IsKmlName("undefined")
  {
    KmlNameCharacterization("doc.kml");
    KmlNameCharacterization("DOC.KML");
    KmlNameCharacterization("x.Kml");
    KmlNameCharacterization("a.kml.png");
    KmlNameCharacterization("kml");
    KmlNameCharacterization("undefined");
  }

  /** Appending entries after a KML entry never changes what is selected:
      later `.kml` entries are ignored. */
  lemma LaterEntriesIgnored(a: Archive, b: Archive)
    requires UniqueNames(a + b)
    requires exists i :: 0 <= i < |a| && IsKmlName(a[i].name)
    ensures SelectKml(a + b) == SelectKml(a)
  {
    var ab: Archive := a + b;
    var k :| 0 <= k < |a| && IsKmlName(a[k].name);
    assert Keys(a)[k] == a[k].name;
    assert Keys(ab) == Keys(a) + Keys(b);
    FindPrefix(Keys(a), Keys(b), IsKmlName);
    var i :| 0 <= i < |a| && Keys(a)[i] == Find(Keys(a), IsKmlName).value;
    assert ab[i] == a[i];
    assert Lookup(ab, a[i].name) == Lookup(a, a[i].name);
  }

  /** An archive with exactly one KML entry yields that entry, whatever else
      it holds. */
  lemma SingleKmlEntry(a: Archive, i: int)
    requires 0 <= i < |a| && IsKmlName(a[i].name)
    requires forall j :: 0 <= j < |a| && j != i ==> !IsKmlName(a[j].name)
    ensures SelectKml(a) == Some(a[i].bytes)
  {
  }

  /** Without a KML entry the result is `null`, except that an entry named
      "undefined" is found through the coerced `undefined` key. */
  lemma UndefinedEntryQuirk(b: Bytes)
    ensures SelectKml([Entry("undefined", b)]) == Some(b)
    ensures SelectKml([Entry("readme.txt", b)]) == None
    ensures SelectKml([Entry("readme.txt", b), Entry("undefined", [])]) == Some([])
  {
    KmlNameCharacterization("undefined");
    KmlNameCharacterization("readme.txt");
    var a1: Archive := [Entry("undefined", b)];
    assert forall i :: 0 <= i < |a1| ==> !IsKmlName(a1[i].name);
    assert a1[0].name == "undefined";
    NoKmlNameSelectsUndefined(a1);
    var a2: Archive := [Entry("readme.txt", b)];
    assert forall i :: 0 <= i < |a2| ==> !IsKmlName(a2[i].name);
    assert forall i :: 0 <= i < |a2| ==> a2[i].name != "undefined";
    var a3: Archive := [Entry("readme.txt", b), Entry("undefined", [])];
    assert forall i :: 0 <= i < |a3| ==> !IsKmlName(a3[i].name);
    assert a3[1].name == "undefined";
    NoKmlNameSelectsUndefined(a3);
  }

  /** A one-entry `doc.kml` archive decodes to that entry's text. */
  lemma DocKmlAlone(st: State, buffer: Bytes, unzip: Unzip, decode: Decode, t: Bytes)
    requires unzip(buffer) == Success([Entry("doc.kml", t)])
    ensures GetKMLData(st, buffer, unzip, decode).result == Success(Some(decode(t)))
  {
    KmlNameExamples();
    var a: Archive := [Entry("doc.kml", t)];
    assert a[0].name == "doc.kml";
  }

  /** What `getKMLData` returns depends on the buffer only, and a successful
      call leaves the same slot behind whatever was there before. */
  lemma GetKMLDataIgnoresPriorState(st1: State, st2: State, buffer: Bytes, unzip: Unzip, decode: Decode)
    ensures GetKMLData(st1, buffer, unzip, decode).result == GetKMLData(st2, buffer, unzip, decode).result
    ensures unzip(buffer).Success? ==>
              GetKMLData(st1, buffer, unzip, decode).state == GetKMLData(st2, buffer, unzip, decode).state
  {
  }

  /** Decoding the same buffer twice is the same as decoding it once. */
  lemma GetKMLDataTwice(st: State, buffer: Bytes, unzip: Unzip, decode: Decode)
    ensures var c1 := GetKMLData(st, buffer, unzip, decode);
            GetKMLData(c1.state, buffer, unzip, decode) == c1
  {
  }

  /** After a successful `getKMLData` an icon lookup never throws, and it
      resolves against the archive just unzipped. */
  lemma ImageAfterDecode(st: State, buffer: Bytes, unzip: Unzip, decode: Decode, pageUrl: string, href: string)
    requires GetKMLData(st, buffer, unzip, decode).result.Success?
    ensures var c := GetKMLData(st, buffer, unzip, decode);
            && c.state.zip == Some(unzip(buffer).value)
            && GetKMLImage(c.state, pageUrl, href).Success?
            && GetKMLImageAsWritten(c.state, pageUrl, href).Success?
  {
  }

  /** `p` is the position of the last '/' in `s`. */
  predicate IsLastSlash(s: string, p: int)
  {
    0 <= p < |s| && s[p] == '/' && forall j :: p < j < |s| ==> s[j] != '/'
  }

  /** The lookup key is `href` from one past the page URL's last '/', and
      the empty string when `href` is not that long. */
  lemma ImageKeyFromPageCut(pageUrl: string, href: string, p: int)
    requires IsLastSlash(pageUrl, p)
    ensures ImageKey(pageUrl, href) == Some(if p + 1 <= |href| then href[p + 1..] else "")
  {
  }

  /** Resolution against the cut of the page URL: an entry with exactly the
      cut key is returned as an object URL over its bytes, anything else
      passes the href through unchanged. */
  lemma GetKMLImageResolution(a: Archive, pageUrl: string, href: string, p: int)
    requires IsLastSlash(pageUrl, p)
    ensures var key := if p + 1 <= |href| then href[p + 1..] else "";
            && (forall i :: 0 <= i < |a| && a[i].name == key ==>
                  GetKMLImage(State(Some(a)), pageUrl, href) == Success(ObjectUrl(EntryBlob(a[i].bytes))))
            && ((forall i :: 0 <= i < |a| ==> a[i].name != key) ==>
                  GetKMLImage(State(Some(a)), pageUrl, href) == Success(Href(href)))
  {
  }

  /** An href made of the page URL up to its last '/' followed by an
      archive path is resolved to exactly that path's entry: cutting at the
      page URL undoes resolving a relative reference against the page. */
  lemma PageRelativeHrefRoundTrip(a: Archive, pageUrl: string, p: int, rel: string)
    requires IsLastSlash(pageUrl, p)
    ensures forall i :: 0 <= i < |a| && a[i].name == rel ==>
              GetKMLImage(State(Some(a)), pageUrl, pageUrl[..p + 1] + rel)
                == Success(ObjectUrl(EntryBlob(a[i].bytes)))
    ensures (forall i :: 0 <= i < |a| ==> a[i].name != rel) ==>
              GetKMLImage(State(Some(a)), pageUrl, pageUrl[..p + 1] + rel)
                == Success(Href(pageUrl[..p + 1] + rel))
  {
  }

  /** The key is cut from the page URL, not taken as the href's last path
      segment: with the page at "http://h/" an href "../assets/icon.png"
      is looked up as "/icon.png" and does not reach an "icon.png" entry. */
  lemma HrefLastSegmentNotUsed(b: Bytes)
    ensures GetKMLImage(State(Some([Entry("icon.png", b)])), "http://h/", "../assets/icon.png")
              == Success(Href("../assets/icon.png"))
  {
  }

  /** main.js resolves an href whose key is an inherited name such as
      "toString" to an object URL over that inherited member, although the
      archive has no such entry; the intended own-entry test passes it
      through. */
  lemma InheritedNameResolvesAsWritten(a: Archive, pageUrl: string, name: string)
    requires |pageUrl| > 0 && pageUrl[|pageUrl| - 1] == '/'
    requires name in InheritedNames && !HasOwn(a, name)
    ensures GetKMLImageAsWritten(State(Some(a)), pageUrl, pageUrl + name)
              == Success(ObjectUrl(InheritedBlob(name)))
    ensures GetKMLImage(State(Some(a)), pageUrl, pageUrl + name)
              == Success(Href(pageUrl + name))
  {
    assert (pageUrl + name)[|pageUrl|..] == name;
  }

  /** An archive entry named like an inherited member shadows it: both
      readings return an object URL over the entry's bytes. */
  lemma OwnEntryShadowsInheritedName(a: Archive, pageUrl: string, i: int)
    requires |pageUrl| > 0 && pageUrl[|pageUrl| - 1] == '/'
    requires 0 <= i < |a| && a[i].name in InheritedNames
    ensures GetKMLImageAsWritten(State(Some(a)), pageUrl, pageUrl + a[i].name)
              == Success(ObjectUrl(EntryBlob(a[i].bytes)))
    ensures GetKMLImage(State(Some(a)), pageUrl, pageUrl + a[i].name)
              == Success(ObjectUrl(EntryBlob(a[i].bytes)))
  {
    assert (pageUrl + a[i].name)[|pageUrl|..] == a[i].name;
  }

  /** Away from the inherited names the two readings agree. */
  lemma AsWrittenAgreesOffInheritedNames(st: State, pageUrl: string, href: string)
    requires ImageKey(pageUrl, href).Some? ==> ImageKey(pageUrl, href).value !in InheritedNames
    ensures GetKMLImageAsWritten(st, pageUrl, href) == GetKMLImage(st, pageUrl, href)
  {
  }
}
