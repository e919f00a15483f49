/** The operating-system label of the dashboard's device breakdown. */
module Dashboard {
  import opened Wrappers
  import opened Text

  /** The lookup table of `map_os_name`, in its order: the first key found in the name wins. */
  const OsMapping: seq<(string, string)> := [
    ("ios", "iOS"),
    ("iphone", "iOS"),
    ("ipad", "iOS"),
    ("android", "Android"),
    ("windows", "Windows"),
    ("mac", "Mac"),
    ("linux", "Linux")
  ]

  const OtherOs: string := "其他"

  /**
   * `map_os_name`: the label of the first key contained in the lowercased
   * name; an unmatched name is title-cased when it has at most ten
   * characters and is "other" when longer.
   */
  function MapOsName(osName: string): (r: string)
    ensures match FirstMatch(OsMapping, Lower(osName))
            case Some(i) => r == OsMapping[i].1
            case None => r == if |osName| <= 10 then Title(osName) else OtherOs
  {
    match FirstMatch(OsMapping, Lower(osName))
    case Some(i) => OsMapping[i].1
    case None => if |osName| <= 10 then Title(osName) else OtherOs
  }

  /** Any name containing one of the Apple keys, in any ASCII case, is iOS. */
  lemma AppleNames(osName: string)
    requires Contains(Lower(osName), "ios") || Contains(Lower(osName), "iphone") || Contains(Lower(osName), "ipad")
    ensures MapOsName(osName) == "iOS"
  {
    assert OsMapping[0].0 == "ios" && OsMapping[1].0 == "iphone" && OsMapping[2].0 == "ipad";
    var i := FirstMatch(OsMapping, Lower(osName));
    assert i.Some? && i.value <= 2;
  }

  /** A name containing `android` and none of the Apple keys is Android. */
  lemma AndroidNames(osName: string)
    requires Contains(Lower(osName), "android")
    requires !Contains(Lower(osName), "ios") && !Contains(Lower(osName), "iphone") && !Contains(Lower(osName), "ipad")
    ensures MapOsName(osName) == "Android"
  {
    assert OsMapping[0].0 == "ios" && OsMapping[1].0 == "iphone" && OsMapping[2].0 == "ipad";
    assert OsMapping[3] == ("android", "Android");
    var i := FirstMatch(OsMapping, Lower(osName));
    assert i.Some? && i.value == 3;
  }

  /** The labels the function can return: the table's, "other", or the title-cased short name. */
  lemma OsNameRange(osName: string)
    ensures var r := MapOsName(osName);
            r in {"iOS", "Android", "Windows", "Mac", "Linux", OtherOs} || (|osName| <= 10 && r == Title(osName))
  {
  }

  /** A name without the keys' first letters `i`, `a`, `w`, `m`, `l` matches no key. */
  lemma NoKeyLetters(s: string)
    requires 'i' !in s && 'a' !in s && 'w' !in s && 'm' !in s && 'l' !in s
    ensures FirstMatch(OsMapping, s).None?
  {
    forall j | 0 <= j < |OsMapping| ensures !Contains(s, OsMapping[j].0) {
      ContainsFirst(s, OsMapping[j].0);
    }
  }

  /** A name containing no key, in any ASCII case, is title-cased when it has at most ten characters. */
  lemma ShortUnknownName(osName: string)
    requires forall j :: 0 <= j < |OsMapping| ==> !Contains(Lower(osName), OsMapping[j].0)
    requires |osName| <= 10
    ensures MapOsName(osName) == Title(osName)
  {
  }

  /** A name containing no key, in any ASCII case, is "other" when it has more than ten characters. */
  lemma LongUnknownName(osName: string)
    requires forall j :: 0 <= j < |OsMapping| ==> !Contains(Lower(osName), OsMapping[j].0)
    requires |osName| > 10
    ensures MapOsName(osName) == OtherOs
  {
  }

  /** For instance, "FreeBSD-Server" holds none of the keys and has fourteen characters. */
  lemma FreeBsdServerIsOther()
    ensures MapOsName("FreeBSD-Server") == OtherOs
  {
    var s := Lower("FreeBSD-Server");
    assert s == "freebsd-server";
    NoKeyLetters(s);
  }
}
