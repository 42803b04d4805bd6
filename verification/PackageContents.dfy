/** What a reader of an MSIX package finds under each part's name. */
module PackageContents {
  import opened Basics
  import opened Bytes
  import opened StoredZip
  import opened BlockMap
  import Utf8
  import ZipReader

  /** The data of the first entry of that name in an archive. */
  function LookUp(archive: seq<byte>, name: string): Option<seq<byte>> {
    var entries := ZipReader.ReadZip(archive);
    if entries == None then None
    else
      var k := IndexOfEntry(entries.value, Utf8.Encode(name));
      if k == |entries.value| then None else Some(entries.value[k].data)
  }

  /** The look-up finds the first part of the name that was written. */
  lemma LookUpPart(parts: seq<Part>, name: string, k: nat)
    requires ZipReader.Fits(parts)
    requires k < |parts| && parts[k].name == name && forall j | 0 <= j < k :: parts[j].name != name
    ensures LookUp(Archive(parts), name) == Some(parts[k].data)
  {
    hide Archive;
    hide IndexOfEntry;
    hide Utf8.Encode;
    hide ZipReader.ReadZip;
    hide ZipReader.EntriesOf;
    hide ZipReader.Fits;
    ZipReader.ZipRoundTrip(parts);
    ZipReader.EntriesOfAt(parts, k);
    FoundAtIff(parts, name, k);
  }

  /** Of parts whose names differ, except that the third may repeat any of them,
      the look-up finds the first of each name. */
  lemma LookUpEach(parts: seq<Part>, k: nat)
    requires ZipReader.Fits(parts) && |parts| == 7 && k < 7
    requires forall i, j | 0 <= i < j < 7 && i != 2 && j != 2 :: parts[i].name != parts[j].name
    ensures LookUp(Archive(parts), parts[k].name)
            == if k == 2 && parts[0].name == parts[2].name then Some(parts[0].data)
               else if k == 2 && parts[1].name == parts[2].name then Some(parts[1].data)
               else if k > 2 && parts[k].name == parts[2].name then Some(parts[2].data)
               else Some(parts[k].data)
  {
    hide Archive;
    hide LookUp;
    hide ZipReader.Fits;
    var first := if k == 2 && parts[0].name == parts[2].name then 0
                 else if k == 2 && parts[1].name == parts[2].name then 1
                 else if k > 2 && parts[k].name == parts[2].name then 2
                 else k;
    LookUpPart(parts, parts[k].name, first);
  }

  lemma NamesDiffer()
    ensures "[Content_Types].xml" != "AppxManifest.xml" && "[Content_Types].xml" != "AppxBlockMap.xml"
    ensures "AppxManifest.xml" != "AppxBlockMap.xml"
  {
    assert "AppxManifest.xml"[4] == 'M' && "AppxBlockMap.xml"[4] == 'B';
    assert |"[Content_Types].xml"| == 19 && |"AppxManifest.xml"| == 16 && |"AppxBlockMap.xml"| == 16;
  }

  lemma LogoNames()
    ensures |"Assets/StoreLogo.png"| == 20 && |"Assets/Square150x150Logo.png"| == 28
    ensures |"Assets/Square44x44Logo.png"| == 26 && |"[Content_Types].xml"| == 19
    ensures |"AppxManifest.xml"| == 16 && |"AppxBlockMap.xml"| == 16
  {
  }

  /** The names a package is written with, in order. */
  lemma PartsInOrder(sha: Hash, contentTypes: seq<byte>, manifest: seq<byte>, executable: string, exe: seq<byte>,
                     store: seq<byte>, logo150: seq<byte>, logo44: seq<byte>)
    ensures var mapped := Payload(manifest, executable, exe, store, logo150, logo44);
            PackageParts(sha, contentTypes, mapped)
            == [Part("[Content_Types].xml", contentTypes), Part("AppxManifest.xml", manifest), Part(executable, exe),
                Part("Assets/StoreLogo.png", store), Part("Assets/Square150x150Logo.png", logo150),
                Part("Assets/Square44x44Logo.png", logo44),
                Part("AppxBlockMap.xml", Utf8.Encode(BlockMapXml(sha, mapped)))]
  {
    hide BlockMapXml;
    hide Utf8.Encode;
  }

  /** Each part of a package is found under its name, with what it was built from;
      of two parts with one name the first is found, so the executable takes the
      place of a logo or of the block map whose name it has, and its own place is
      taken by the content types or the manifest. */
  lemma PackageLookUp(sha: Hash, contentTypes: seq<byte>, manifest: seq<byte>, executable: string, exe: seq<byte>,
                      store: seq<byte>, logo150: seq<byte>, logo44: seq<byte>)
    requires ZipReader.Fits(PackageParts(sha, contentTypes,
                                         Payload(manifest, executable, exe, store, logo150, logo44)))
    ensures var mapped := Payload(manifest, executable, exe, store, logo150, logo44);
            var package := Archive(PackageParts(sha, contentTypes, mapped));
            && LookUp(package, "[Content_Types].xml") == Some(contentTypes)
            && LookUp(package, "AppxManifest.xml") == Some(manifest)
            && LookUp(package, executable)
               == Some(if executable == "[Content_Types].xml" then contentTypes
                       else if executable == "AppxManifest.xml" then manifest
                       else exe)
            && LookUp(package, "Assets/StoreLogo.png")
               == Some(if executable == "Assets/StoreLogo.png" then exe else store)
            && LookUp(package, "Assets/Square150x150Logo.png")
               == Some(if executable == "Assets/Square150x150Logo.png" then exe else logo150)
            && LookUp(package, "Assets/Square44x44Logo.png")
               == Some(if executable == "Assets/Square44x44Logo.png" then exe else logo44)
            && LookUp(package, "AppxBlockMap.xml")
               == Some(if executable == "AppxBlockMap.xml" then exe else Utf8.Encode(BlockMapXml(sha, mapped)))
  {
    hide Archive;
    hide LookUp;
    hide Payload;
    hide PackageParts;
    hide BlockMapXml;
    hide Utf8.Encode;
    hide ZipReader.Fits;
    var mapped := Payload(manifest, executable, exe, store, logo150, logo44);
    var parts := PackageParts(sha, contentTypes, mapped);
    PartsInOrder(sha, contentTypes, manifest, executable, exe, store, logo150, logo44);
    NamesDiffer();
    LogoNames();
    forall k: nat | k < 7
      ensures LookUp(Archive(parts), parts[k].name)
              == if k == 2 && parts[0].name == parts[2].name then Some(parts[0].data)
                 else if k == 2 && parts[1].name == parts[2].name then Some(parts[1].data)
                 else if k > 2 && parts[k].name == parts[2].name then Some(parts[2].data)
                 else Some(parts[k].data)
    {
      LookUpEach(parts, k);
    }
    assert parts[0].name == "[Content_Types].xml" && parts[1].name == "AppxManifest.xml";
    assert parts[3].name == "Assets/StoreLogo.png" && parts[4].name == "Assets/Square150x150Logo.png";
    assert parts[5].name == "Assets/Square44x44Logo.png" && parts[6].name == "AppxBlockMap.xml";
  }

  /** The executable is found under its name exactly when that is not the name of
      the content types or the manifest, or they hold the same bytes. */
  lemma ExecutableFoundIff(sha: Hash, contentTypes: seq<byte>, manifest: seq<byte>, executable: string, exe: seq<byte>,
                           store: seq<byte>, logo150: seq<byte>, logo44: seq<byte>)
    requires ZipReader.Fits(PackageParts(sha, contentTypes,
                                         Payload(manifest, executable, exe, store, logo150, logo44)))
    ensures var mapped := Payload(manifest, executable, exe, store, logo150, logo44);
            LookUp(Archive(PackageParts(sha, contentTypes, mapped)), executable) == Some(exe) <==>
            && (executable == "[Content_Types].xml" ==> exe == contentTypes)
            && (executable == "AppxManifest.xml" ==> exe == manifest)
  {
    hide Archive;
    hide LookUp;
    hide Payload;
    hide PackageParts;
    hide ZipReader.Fits;
    NamesDiffer();
    PackageLookUp(sha, contentTypes, manifest, executable, exe, store, logo150, logo44);
  }
}
