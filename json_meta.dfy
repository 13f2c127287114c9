/**
 * Document metadata (the YAML front matter) navigated by dotted paths such as
 * `authors.0.name_ru` (src/document-json-meta.ts). Navigation never fails: a
 * missing step gives an absent value. Only the typed accessors (`AsArray`,
 * `GetKeys`, `GetString`) fail, with an error naming the absolute path.
 */
module JsonMeta {
  import opened Wrappers
  import opened Strings

  /** A metadata value as YAML parsing produces it. */
  datatype Value =
    | Str(s: string)
    | Arr(items: seq<Value>)
    | Map(entries: map<string, Value>)
    | Num(n: int)
    | Bool(b: bool)
    | Null

  /** JavaScript truthiness of a value that may be `undefined` (None). */
  predicate Falsy(v: Option<Value>) {
    match v
    case None => true
    case Some(Str(s)) => s == ""
    case Some(Num(n)) => n == 0
    case Some(Bool(b)) => !b
    case Some(Null) => true
    case Some(_) => false
  }

  /** `metaType`: "array" for arrays, otherwise JavaScript's `typeof`. */
  function MetaType(v: Value): string {
    match v
    case Arr(_) => "array"
    case Str(_) => "string"
    case Map(_) => "object"
    case Null => "object"
    case Num(_) => "number"
    case Bool(_) => "boolean"
  }

  datatype MetaError =
    | NotExist(expected: string, absPath: string)
    | WrongType(expected: string, absPath: string, actual: string)

  /** The text of the thrown error. */
  function Message(e: MetaError): (r: string)
    ensures Contains(r, " at path " + e.absPath)
  {
    var prefix := match e
      case NotExist(expected, _) => "Failed to parse document metadata: expected to have " + expected
      case WrongType(expected, _, _) => "Failed to parse document metadata: expected " + expected;
    var suffix := match e
      case NotExist(_, _) => ""
      case WrongType(_, _, actual) => ", got " + actual + " instead";
    var r := prefix + " at path " + e.absPath + suffix;
    assert r[|prefix|..|prefix| + |" at path " + e.absPath|] == " at path " + e.absPath;
    ContainsAt(r, " at path " + e.absPath, |prefix|);
    r
  }

  /** Value of a digit character in bases up to 36. */
  function DigitValue(c: char): nat {
    if '0' <= c <= '9' then c as nat - '0' as nat
    else if 'a' <= c <= 'z' then c as nat - 'a' as nat + 10
    else if 'A' <= c <= 'Z' then c as nat - 'A' as nat + 10
    else 36
  }

  /** Length of the longest prefix of `w` made of digits of the given base. */
  function DigitPrefix(w: string, radix: nat): (k: nat)
    ensures k <= |w|
    ensures forall j :: 0 <= j < k ==> DigitValue(w[j]) < radix
    ensures k < |w| ==> DigitValue(w[k]) >= radix
  {
    if |w| > 0 && DigitValue(w[0]) < radix then 1 + DigitPrefix(w[1..], radix) else 0
  }

  function DigitsValue(w: string, radix: nat): nat {
    if |w| == 0 then 0 else DigitsValue(w[..|w| - 1], radix) * radix + DigitValue(w[|w| - 1])
  }

  /** The text after leading white space and one optional sign. */
  function Unsigned(s: string): string {
    var t := TrimStart(s);
    if |t| > 0 && (t[0] == '-' || t[0] == '+') then t[1..] else t
  }

  /** A `0x` or `0X` prefix selects base 16. */
  predicate IsHexPrefixed(u: string) {
    |u| >= 2 && u[0] == '0' && (u[1] == 'x' || u[1] == 'X')
  }

  function Radix(u: string): nat {
    if IsHexPrefixed(u) then 16 else 10
  }

  /** The digits after the base prefix. */
  function DigitText(u: string): string {
    if IsHexPrefixed(u) then u[2..] else u
  }

  /**
   * `Number.parseInt(s)` without a radix: leading white space, an optional
   * sign, an optional `0x` prefix, then the longest run of digits; None is NaN.
   */
  function ParseInt(s: string): (r: Option<int>)
    ensures |s| == 0 ==> r.None?
    ensures r.None? <==> DigitPrefix(DigitText(Unsigned(s)), Radix(Unsigned(s))) == 0
  {
    var t := TrimStart(s);
    var negative := |t| > 0 && t[0] == '-';
    var u := Unsigned(s);
    var w := DigitText(u);
    var k := DigitPrefix(w, Radix(u));
    if k == 0 then None
    else
      var n: int := DigitsValue(w[..k], Radix(u));
      Some(if negative then -n else n)
  }

  /** The digits of a number read back in base 10 give the number. */
  lemma {:induction false} DigitsValueOfNatToString(n: nat)
    ensures DigitsValue(NatToString(n), 10) == n
  {
    var s := NatToString(n);
    if n < 10 {
      assert s[..0] == [];
    } else {
      DigitsValueOfNatToString(n / 10);
      assert s[..|s| - 1] == NatToString(n / 10);
    }
  }

  /** The whole of a printed number is its decimal digit run, and reads back as the number. */
  lemma PrintedDigits(n: nat)
    ensures var s := NatToString(n);
      !IsHexPrefixed(s) && DigitPrefix(s, 10) == |s| && DigitsValue(s[..|s|], 10) == n
  {
    var s := NatToString(n);
    NatToStringDigits(n);
    DigitsValueOfNatToString(n);
    assert s[..|s|] == s;
  }

  /** `parseInt` reads back what `NatToString` prints. */
  lemma ParseIntNatToString(n: nat)
    ensures ParseInt(NatToString(n)) == Some(n)
  {
    var s := NatToString(n);
    NatToStringDigits(n);
    PrintedDigits(n);
    assert IsDigit(s[0]) && !IsJsSpace(s[0]);
    assert TrimStart(s) == s;
    assert Unsigned(s) == s;
    assert DigitText(s) == s && Radix(s) == 10;
  }

  /** `parseInt` reads a minus sign before a printed number as its negation. */
  lemma ParseIntNegated(n: nat)
    ensures ParseInt("-" + NatToString(n)) == Some(-(n as int))
  {
    var s := NatToString(n);
    var m := "-" + s;
    PrintedDigits(n);
    assert m[0] == '-' && !IsJsSpace(m[0]);
    assert TrimStart(m) == m;
    assert m[1..] == s;
    assert Unsigned(m) == s;
    assert DigitText(s) == s && Radix(s) == 10;
  }

  /** One step of the path walk, on a value already known to be truthy. */
  function Step(v: Value, component: string): Option<Option<Value>> {
    match v
    case Arr(items) =>
      (match ParseInt(component)
       case None => Some(Some(v))
       case Some(index) => Some(if 0 <= index < |items| then Some(items[index]) else None))
    case Map(entries) => Some(if component in entries then Some(entries[component]) else None)
    case _ => None
  }

  /**
   * The loop of `getChild` as a recursive definition: a `__proto__`
   * component or a falsy current value gives `undefined`; an array ignores a
   * non-numeric component; a scalar stops the walk with `undefined`.
   */
  function Navigate(v: Option<Value>, comps: seq<string>): Option<Value>
    decreases |comps|
  {
    if |comps| == 0 then v
    else if comps[0] == "__proto__" then None
    else if Falsy(v) then None
    else
      match Step(v.value, comps[0])
      case None => None
      case Some(next) => Navigate(next, comps[1..])
  }

  datatype Meta = Meta(section: Option<Value>, path: string) {

    /** `getAbsPath`: the stored path and the relative path joined by a dot. */
    function AbsPath(relPath: string): string {
      if |path| > 0 then
        if |relPath| > 0 then path + "." + relPath else path
      else relPath
    }

    /** What `getChild(p)` returns. */
    function Child(p: string): Option<Value> {
      if |p| == 0 then section else Navigate(section, Split(p, '.'))
    }

    /** `getChild`: walks the path one component at a time. */
    method GetChild(p: string) returns (r: Option<Value>)
      ensures r == Child(p)
    {
      if |p| == 0 {
        return section;
      }
      var comps := Split(p, '.');
      var result := section;
      var i := 0;
      while i < |comps|
        invariant 0 <= i <= |comps|
        invariant Navigate(result, comps[i..]) == Navigate(section, comps)
      {
        var component := comps[i];
        assert comps[i..][0] == component && comps[i..][1..] == comps[i + 1..];
        if component == "__proto__" {
          return None;
        }
        if Falsy(result) {
          return None;
        }
        match result.value {
          case Arr(items) =>
            var index := ParseInt(component);
            if index.Some? {
              result := if 0 <= index.value < |items| then Some(items[index.value]) else None;
            }
          case Map(entries) =>
            result := if component in entries then Some(entries[component]) else None;
          case _ =>
            return None;
        }
        i := i + 1;
      }
      return result;
    }

    /** `getSection`: the value at the path, remembering its absolute path. */
    function GetSection(p: string): (r: Meta)
      ensures r.section == Child(p) && r.path == AbsPath(p)
    {
      Meta(Child(p), AbsPath(p))
    }

    function IsArray(): (r: bool)
      ensures r <==> section.Some? && section.value.Arr?
    {
      section.Some? && section.value.Arr?
    }

    /** `isMap`: `typeof` is "object" and it is not an array, which holds for `null` too. */
    function IsMap(): (r: bool)
      ensures r <==> section.Some? && (section.value.Map? || section.value.Null?)
      ensures r ==> !IsArray()
    {
      section.Some? && (section.value.Map? || section.value.Null?)
    }

    /** `asArray`: one wrapper per element, in order, at path `<abs>.<index>`. */
    function AsArray(): (r: Result<seq<Meta>, MetaError>)
      ensures section.None? <==> r == Err(NotExist("array", AbsPath("")))
      ensures section.Some? && !IsArray() ==> r == Err(WrongType("array", AbsPath(""), MetaType(section.value)))
      ensures r.Err? <==> !IsArray()
      ensures r.Ok? ==> IsArray() && |r.value| == |section.value.items|
      ensures r.Ok? ==> forall i :: 0 <= i < |r.value| ==>
                r.value[i] == Meta(Some(section.value.items[i]), AbsPath(NatToString(i)))
    {
      if section.None? then Err(NotExist("array", AbsPath("")))
      else if !IsArray() then Err(WrongType("array", AbsPath(""), MetaType(section.value)))
      else
        var items := section.value.items;
        Ok(seq(|items|, i requires 0 <= i < |items| => Meta(Some(items[i]), AbsPath(NatToString(i)))))
    }

    /** `getKeys`: a falsy section (including `null`) does not exist; a non-map is the wrong type. */
    function GetKeys(): (r: Result<set<string>, MetaError>)
      ensures Falsy(section) <==> r == Err(NotExist("object", AbsPath("")))
      ensures !Falsy(section) && !section.value.Map? ==>
                r == Err(WrongType("object", AbsPath(""), MetaType(section.value)))
      ensures section.Some? && section.value.Map? ==> r == Ok(section.value.entries.Keys)
      ensures r.Ok? ==> section.Some? && section.value.Map? && r.value == section.value.entries.Keys
    {
      if Falsy(section) then Err(NotExist("object", AbsPath("")))
      else if !IsMap() then Err(WrongType("object", AbsPath(""), MetaType(section.value)))
      else Ok(section.value.entries.Keys)
    }

    /** `getString`: the string at the path; a missing or falsy child (even "") does not exist. */
    function GetString(p: string): (r: Result<string, MetaError>)
      ensures Falsy(Child(p)) <==> r == Err(NotExist("MetaInlines", AbsPath(p)))
      ensures r.Ok? <==> Child(p).Some? && Child(p).value.Str? && Child(p).value.s != ""
      ensures r.Ok? ==> Child(p) == Some(Str(r.value))
      ensures r.Err? && r.error.WrongType? ==>
                r.error == WrongType("MetaInlines", AbsPath(p), MetaType(Child(p).value))
    {
      var child := Child(p);
      if Falsy(child) then Err(NotExist("MetaInlines", AbsPath(p)))
      else if !child.value.Str? then Err(WrongType("MetaInlines", AbsPath(p), MetaType(child.value)))
      else Ok(child.value.s)
    }
  }

  /** A wrapper at the root of the front matter (`new DocumentJsonMeta(value)`). */
  function Root(v: Value): (m: Meta)
    ensures m.path == "" && m.section == Some(v)
  {
    Meta(Some(v), "")
  }

  /** `getChild("")` is the section itself. */
  lemma EmptyPathIsSection(m: Meta)
    ensures m.Child("") == m.section && m.GetSection("").section == m.section
  {
  }

  /** A `__proto__` component anywhere in the path gives `undefined`. */
  lemma {:induction false} ProtoComponentIsAbsent(v: Option<Value>, comps: seq<string>, k: nat)
    requires k < |comps| && comps[k] == "__proto__"
    ensures Navigate(v, comps) == None
    decreases |comps|
  {
    if k > 0 && comps[0] != "__proto__" && !Falsy(v) {
      match Step(v.value, comps[0])
      case None =>
      case Some(next) =>
        ProtoComponentIsAbsent(next, comps[1..], k - 1);
    }
  }

  /** The same, for a dotted path handed to `getChild`. */
  lemma ProtoPathIsAbsent(m: Meta, p: string, k: nat)
    requires k < |Split(p, '.')| && Split(p, '.')[k] == "__proto__"
    ensures m.Child(p) == None
  {
    ProtoComponentIsAbsent(m.section, Split(p, '.'), k);
  }

  /** Below a falsy value or a scalar, every non-empty path is absent. */
  lemma BelowFalsyOrScalarIsAbsent(v: Option<Value>, comps: seq<string>)
    requires |comps| > 0
    requires Falsy(v) || v.value.Str? || v.value.Num? || v.value.Bool?
    ensures Navigate(v, comps) == None
  {
  }

  /** On an array, a component that is not a number leaves the walk where it is. */
  lemma ArrayIgnoresNonNumeric(items: seq<Value>, comps: seq<string>)
    requires |comps| > 0 && comps[0] != "__proto__" && ParseInt(comps[0]).None?
    ensures Navigate(Some(Arr(items)), comps) == Navigate(Some(Arr(items)), comps[1..])
  {
  }

  /** Walking a concatenated path is walking its two halves in turn. */
  lemma {:induction false} NavigateAppend(v: Option<Value>, a: seq<string>, b: seq<string>)
    requires |b| > 0
    ensures Navigate(v, a + b) == Navigate(Navigate(v, a), b)
    decreases |a|
  {
    if |a| > 0 {
      assert (a + b)[0] == a[0] && (a + b)[1..] == a[1..] + b;
      if a[0] != "__proto__" && !Falsy(v) {
        match Step(v.value, a[0])
        case None =>
        case Some(next) =>
          NavigateAppend(next, a[1..], b);
      }
    } else {
      assert a + b == b;
    }
  }

  /**
   * `getAbsPath` joins the stored and the relative path with a dot when both
   * are non-empty, so the absolute path's components are the stored ones
   * followed by the relative ones; otherwise it is whichever is non-empty.
   */
  lemma AbsPathComponents(m: Meta, rel: string)
    ensures |m.path| > 0 && |rel| > 0 ==>
              Split(m.AbsPath(rel), '.') == Split(m.path, '.') + Split(rel, '.')
    ensures |m.path| == 0 ==> m.AbsPath(rel) == rel
    ensures |rel| == 0 ==> m.AbsPath(rel) == m.path
  {
    if |m.path| > 0 && |rel| > 0 {
      SplitAround(m.path, rel, '.');
    }
  }

  /**
   * Sections compose: looking up `q` in the section at `p` reads the same
   * value as looking up `p.q`, and reports the same absolute path.
   */
  lemma SectionsCompose(m: Meta, p: string, q: string)
    requires |p| > 0 && |q| > 0
    ensures m.GetSection(p).Child(q) == m.Child(p + "." + q)
    ensures m.GetSection(p).AbsPath(q) == m.AbsPath(p + "." + q)
  {
    SplitAround(p, q, '.');
    NavigateAppend(m.section, Split(p, '.'), Split(q, '.'));
    assert |p + "." + q| > 0;
    if |m.path| > 0 {
      assert m.path + "." + p + "." + q == m.path + "." + (p + "." + q);
    }
  }

  /** `isArray` and `isMap` are both false on an absent section and never both true. */
  lemma KindsExclusive(m: Meta)
    ensures m.section.None? ==> !m.IsArray() && !m.IsMap()
    ensures !(m.IsArray() && m.IsMap())
  {
  }
}
