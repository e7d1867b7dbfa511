/** The newest resource version seen per resource type. */
module ResourceVersions {
  import opened Options

  const MAX_UINT64: nat := 0xffff_ffff_ffff_ffff

  // ---------- unsigned decimals ----------

  predicate IsDigit(c: char) {
    '0' <= c <= '9'
  }

  function DigitValue(c: char): nat
    requires IsDigit(c)
  {
    c as int - '0' as int
  }

  ghost predicate AllDigits(s: string) {
    forall i :: 0 <= i < |s| ==> IsDigit(s[i])
  }

  ghost function Value(s: string): nat
    requires AllDigits(s)
  {
    if s == "" then 0 else 10 * Value(s[..|s| - 1]) + DigitValue(s[|s| - 1])
  }

  /** The 64-bit number a string denotes: it has digits, nothing but digits, and does not overflow. */
  ghost function Parsed(s: string): Option<nat> {
    if s != "" && AllDigits(s) && Value(s) <= MAX_UINT64 then Some(Value(s)) else None
  }

  lemma {:induction false} ValueGrows(s: string, n: nat)
    requires AllDigits(s) && n <= |s|
    ensures Value(s[..n]) <= Value(s)
  {
    if n < |s| {
      ValueGrows(s[..|s| - 1], n);
      assert s[..|s| - 1][..n] == s[..n];
    } else {
      assert s[..n] == s;
    }
  }

  ghost predicate Overflows(s: string) {
    AllDigits(s) && Value(s) > 0xffff_ffff_ffff_ffff
  }

  /** Reads digit by digit and gives up at the first bad one or as soon as 64 bits are exceeded. */
  method ParseUint(s: string) returns (version: Option<nat>)
    ensures version == Parsed(s)
    ensures version.Some? ==> s != "" && (forall i :: 0 <= i < |s| ==> '0' <= s[i] <= '9')
    ensures version.None? ==> s == "" || (exists i :: 0 <= i < |s| && !('0' <= s[i] <= '9')) || Overflows(s)
  {
    if s == "" {
      return None;
    }
    var n := 0;
    for i := 0 to |s|
      invariant AllDigits(s[..i]) && n == Value(s[..i]) && n <= MAX_UINT64
    {
      if !IsDigit(s[i]) {
        return None;
      }
      assert s[..i + 1][..i] == s[..i];
      n := 10 * n + DigitValue(s[i]);
      if n > MAX_UINT64 {
        if AllDigits(s) {
          ValueGrows(s, i + 1);
        }
        return None;
      }
    }
    assert s[..|s|] == s;
    return Some(n);
  }

  function DigitChar(d: nat): char
    requires d < 10
  {
    (d + '0' as int) as char
  }

  function Formatted(n: nat): (s: string)
    ensures s != ""
    ensures forall i :: 0 <= i < |s| ==> IsDigit(s[i])
  {
    if n < 10 then [DigitChar(n)] else Formatted(n / 10) + [DigitChar(n % 10)]
  }

  /** Formatting loses nothing. */
  lemma {:induction false} ParseOfFormat(n: nat)
    ensures Value(Formatted(n)) == n
    ensures n <= MAX_UINT64 ==> Parsed(Formatted(n)) == Some(n)
  {
    var s := Formatted(n);
    if n >= 10 {
      ParseOfFormat(n / 10);
      assert s[..|s| - 1] == Formatted(n / 10);
    } else {
      assert s[..0] == "";
    }
  }

  /** Formatting is canonical: any other string for the same number has leading zeros. */
  lemma {:induction false} FormatOfParse(s: string)
    requires s != "" && AllDigits(s) && (s[0] != '0' || |s| == 1)
    ensures Formatted(Value(s)) == s
  {
    var k := |s| - 1;
    OneDigit(s[k]);
    if k > 0 {
      FormatOfParse(s[..k]);
      PositiveValue(s[..k]);
      FormatAppends(Value(s[..k]), DigitValue(s[k]));
      assert s == s[..k] + [s[k]];
    } else {
      assert s[..0] == "" && s == [s[0]];
    }
  }

  lemma OneDigit(c: char)
    requires IsDigit(c)
    ensures DigitChar(DigitValue(c)) == c
  {
  }

  lemma FormatAppends(n: nat, d: nat)
    requires n > 0 && d < 10
    ensures Formatted(10 * n + d) == Formatted(n) + [DigitChar(d)]
  {
    assert (10 * n + d) / 10 == n && (10 * n + d) % 10 == d;
  }

  /** What is formatted can be parsed exactly when it fits 64 bits. */
  lemma FormatFits(n: nat)
    ensures Parsed(Formatted(n)).Some? <==> n <= 18446744073709551615
  {
    ParseOfFormat(n);
  }

  /** Leading zeros do not change the number. */
  lemma {:induction false} LeadingZeros(s: string)
    requires s != "" && AllDigits(s)
    ensures AllDigits("0" + s) && Parsed("0" + s) == Parsed(s)
  {
    ZeroInFront(s);
  }

  lemma {:induction false} ZeroInFront(s: string)
    requires AllDigits(s)
    ensures AllDigits("0" + s) && Value("0" + s) == Value(s)
  {
    var t := "0" + s;
    if s == "" {
      assert t[..0] == "";
    } else {
      ZeroInFront(s[..|s| - 1]);
      assert t[..|t| - 1] == "0" + s[..|s| - 1];
    }
  }

  lemma {:induction false} PositiveValue(s: string)
    requires s != "" && AllDigits(s) && s[0] != '0'
    ensures Value(s) > 0
  {
    if |s| > 1 {
      PositiveValue(s[..|s| - 1]);
    } else {
      assert s[..0] == "";
    }
  }

  // ---------- the state ----------

  datatype ResourceType = ResourceType(objectKind: string, apiGroup: string)

  type Versions = map<ResourceType, nat>

  ghost function Recorded(m: Versions, id: ResourceType, s: string): Versions {
    match Parsed(s)
    case None => m
    case Some(v) => m[id := if id in m && m[id] > v then m[id] else v]
  }

  /** What `Get` returns for `id`. */
  ghost function Got(m: Versions, id: ResourceType): string {
    if id in m then Formatted(m[id]) else "0"
  }

  class ResourcesVersionsState {
    var resourcesVersions: Versions

    constructor ()
      ensures resourcesVersions == map[]
    {
      resourcesVersions := map[];
    }

    method Get(identifier: ResourceType) returns (version: string, exists': bool)
      ensures exists' <==> identifier in resourcesVersions
      ensures version == Got(resourcesVersions, identifier)
    {
      if identifier !in resourcesVersions {
        return "0", false;
      }
      return Formatted(resourcesVersions[identifier]), true;
    }

    method Set(identifier: ResourceType, resourceVersion: string) returns (ok: bool)
      modifies this
      ensures ok <==> Parsed(resourceVersion).Some?
      ensures resourcesVersions == Recorded(old(resourcesVersions), identifier, resourceVersion)
    {
      var parsed := ParseUint(resourceVersion);
      if parsed.None? {
        return false;
      }
      var version := parsed.value;
      if identifier in resourcesVersions && resourcesVersions[identifier] > version {
        version := resourcesVersions[identifier];
      }
      resourcesVersions := resourcesVersions[identifier := version];
      return true;
    }
  }

  // ---------- sequences of calls ----------

  datatype Setting = Setting(id: ResourceType, version: string)

  ghost function After(m: Versions, settings: seq<Setting>): Versions {
    if settings == [] then m
    else
      var last := settings[|settings| - 1];
      Recorded(After(m, settings[..|settings| - 1]), last.id, last.version)
  }

  /** The version a call sets for `id`, if it is about `id` and valid. */
  ghost function SetFor(x: Setting, id: ResourceType): Option<nat> {
    if x.id == id then Parsed(x.version) else None
  }

  ghost predicate SetAtAll(settings: seq<Setting>, id: ResourceType) {
    exists x :: x in settings && SetFor(x, id).Some?
  }

  /** `v` is the newest valid version set for `id`. */
  ghost predicate NewestSet(settings: seq<Setting>, id: ResourceType, v: nat) {
    && (exists x :: x in settings && SetFor(x, id) == Some(v))
    && (forall x :: x in settings && SetFor(x, id).Some? ==> SetFor(x, id).value <= v)
  }

  /** After any sequence of calls the state holds, for every identifier set at least once to a
      valid version, the newest such version: the order does not matter and bad strings change
      nothing. */
  lemma {:induction false} HoldsNewest(settings: seq<Setting>, id: ResourceType)
    ensures id in After(map[], settings) <==> SetAtAll(settings, id)
    ensures id in After(map[], settings) ==> NewestSet(settings, id, After(map[], settings)[id])
    ensures id in After(map[], settings) ==> After(map[], settings)[id] <= MAX_UINT64
  {
    if settings == [] {
    } else {
      var k := |settings| - 1;
      var before, last := settings[..k], settings[k];
      HoldsNewest(before, id);
      assert settings == before + [last];
      var m := After(map[], before);
      NewestExtended(before, last, id, if id in m then Some(m[id]) else None);
    }
  }

  lemma NewestExtended(before: seq<Setting>, last: Setting, id: ResourceType, newest: Option<nat>)
    requires newest.Some? <==> SetAtAll(before, id)
    requires newest.Some? ==> NewestSet(before, id, newest.value)
    ensures
      var all, v := before + [last], SetFor(last, id);
      && (SetAtAll(all, id) <==> newest.Some? || v.Some?)
      && (v.Some? && (newest.None? || newest.value <= v.value) ==> NewestSet(all, id, v.value))
      && (newest.Some? && (v.None? || v.value < newest.value) ==> NewestSet(all, id, newest.value))
  {
    var all := before + [last];
    assert forall x :: x in all <==> x in before || x == last;
  }

  lemma NewestSetIsUnique(settings: seq<Setting>, id: ResourceType, u: nat, v: nat)
    requires NewestSet(settings, id, u) && NewestSet(settings, id, v)
    ensures u == v
  {
    var x :| x in settings && SetFor(x, id) == Some(u);
    var y :| y in settings && SetFor(y, id) == Some(v);
    assert u <= v && v <= u;
  }

  /** Calls in another order leave the same state. */
  lemma OrderDoesNotMatter(a: seq<Setting>, b: seq<Setting>)
    requires forall x :: x in a <==> x in b
    ensures After(map[], a) == After(map[], b)
  {
    var m, m' := After(map[], a), After(map[], b);
    forall id ensures id in m <==> id in m' ensures id in m ==> m[id] == m'[id] {
      HoldsNewest(a, id);
      HoldsNewest(b, id);
      if id in m {
        assert NewestSet(b, id, m[id]);
        NewestSetIsUnique(b, id, m[id], m'[id]);
      }
    }
  }

  /** Setting what `Get` returned changes nothing exactly when `Get` did not report a miss. */
  lemma SettingGotIsNoOpIff(settings: seq<Setting>, id: ResourceType)
    ensures
      var m := After(map[], settings);
      Recorded(m, id, Got(m, id)) == m <==> id in m
  {
    var m := After(map[], settings);
    if id in m {
      HoldsNewest(settings, id);
      ParseOfFormat(m[id]);
    } else {
      ParseOfFormat(0);
      assert Formatted(0) == "0";
    }
  }

  /** The "0" returned with a miss, once set, makes the identifier known. */
  lemma SettingMissedZero(id: ResourceType)
    ensures Got(map[], id) == "0"
    ensures Recorded(map[], id, Got(map[], id)) == map[id := 0] != map[]
  {
    ParseOfFormat(0);
    assert Formatted(0) == "0";
    assert id in map[id := 0];
  }
}
