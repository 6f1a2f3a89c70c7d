/** Derivation paths written as text. */
module Bip32 {
  import opened Results
  import opened Words

  const HARDENED: nat := 0x8000_0000

  // ---- What the string library does ----

  /** Unicode white space. */
  predicate IsSpace(c: char) {
    var n := c as int;
    9 <= n <= 13 || n == 0x20 || n == 0x85 || n == 0xA0 || n == 0x1680 || 0x2000 <= n <= 0x200A
    || n == 0x2028 || n == 0x2029 || n == 0x202F || n == 0x205F || n == 0x3000
  }

  function TrimStart(s: string): string {
    if s != "" && IsSpace(s[0]) then TrimStart(s[1..]) else s
  }

  function TrimEnd(s: string): string {
    if s != "" && IsSpace(s[|s| - 1]) then TrimEnd(s[..|s| - 1]) else s
  }

  function Trim(s: string): string { TrimEnd(TrimStart(s)) }

  /** The pieces between slashes; always at least one. */
  function Split(s: string): (parts: seq<string>)
    ensures |parts| > 0
  {
    if s == "" then [""]
    else
      var rest := Split(s[1..]);
      if s[0] == '/' then [""] + rest else [[s[0]] + rest[0]] + rest[1..]
  }

  predicate IsDigit(c: char) { '0' <= c <= '9' }

  predicate AllDigits(s: string) { forall i :: 0 <= i < |s| ==> IsDigit(s[i]) }

  function Decimal(s: string): nat
    requires AllDigits(s)
  {
    if s == "" then 0 else 10 * Decimal(s[..|s| - 1]) + (s[|s| - 1] as nat - '0' as nat)
  }

  /** Decimal digits behind an optional plus sign, within 32 bits. */
  function ParseU32(s: string): Result<nat> {
    var digits := if s != "" && s[0] == '+' then s[1..] else s;
    if digits == "" || !AllDigits(digits) || Decimal(digits) > 0xFFFF_FFFF then Err else Ok(Decimal(digits))
  }

  // ---- The parser ----

  predicate IsMark(c: char) { c == '\'' || c == 'h' || c == 'H' }

  function StripMark(comp: string): (string, bool) {
    if comp != "" && IsMark(comp[|comp| - 1]) then (comp[..|comp| - 1], true) else (comp, false)
  }

  function Component(raw: string): Result<u32> {
    var comp := Trim(raw);
    var (digits, hardened) := StripMark(comp);
    var idx := ParseU32(digits);
    if comp == "" || idx.Err? || idx.value >= HARDENED then Err
    else Ok((if hardened then idx.value + HARDENED else idx.value) as u32)
  }

  function Components(parts: seq<string>): Result<seq<u32>> {
    if parts == [] then Ok([])
    else
      var v := Component(parts[0]);
      if v.Err? then Err
      else
        var rest := Components(parts[1..]);
        if rest.Err? then Err else Ok([v.value] + rest.value)
  }

  function Body(input: string): string {
    var trimmed := Trim(input);
    if "m/" <= trimmed || "M/" <= trimmed then trimmed[2..] else trimmed
  }

  function Path(input: string): Result<seq<u32>> {
    var body := Body(input);
    if body == "" || body == "m" || body == "M" then Ok([]) else Components(Split(body))
  }

  method ParseComponent(raw: string) returns (r: Result<u32>)
    ensures r == Component(raw)
  {
    var comp := Trim(raw);
    if comp == "" { return Err; }
    var digits, hardened := comp, false;
    var last := comp[|comp| - 1];
    if last == '\'' || last == 'h' || last == 'H' { digits, hardened := comp[..|comp| - 1], true; }
    var idx := ParseU32(digits);
    if idx.Err? { return Err; }
    if idx.value >= HARDENED { return Err; }
    SetTopBit(idx.value);
    r := Ok((if hardened then BitOr(idx.value, HARDENED) else idx.value) as u32);
  }

  method ParsePath(input: string) returns (r: Result<seq<u32>>)
    ensures r == Path(input)
  {
    var trimmed := Trim(input);
    var body := if "m/" <= trimmed then trimmed[2..] else if "M/" <= trimmed then trimmed[2..] else trimmed;
    if body == "" || body == "m" || body == "M" { return Ok([]); }
    r := ParseComponents(Split(body));
  }

  method ParseComponents(parts: seq<string>) returns (r: Result<seq<u32>>)
    ensures r == Components(parts)
  {
    var path: seq<u32> := [];
    ghost var all := Components(parts);
    assert parts[0..] == parts && (all.Ok? ==> all.value == [] + all.value);
    for i := 0 to |parts|
      invariant all == (if Components(parts[i..]).Err? then Err else Ok(path + Components(parts[i..]).value))
    {
      ghost var here := Components(parts[i..]);
      assert parts[i..][1..] == parts[i + 1..];
      var v := ParseComponent(parts[i]);
      if v.Err? { return Err; }
      if here.Ok? { assert path + here.value == path + [v.value] + Components(parts[i + 1..]).value; }
      path := path + [v.value];
    }
    assert path + [] == path;
    r := Ok(path);
  }

  lemma SetTopBit(idx: nat)
    requires idx < HARDENED
    ensures BitOr(idx, HARDENED) == idx + HARDENED
  {
    TopBit();
    BitOrDisjoint(idx, 1, 31);
  }

  lemma TopBit()
    ensures Exp2(31) == HARDENED
  {
    assert Exp2(8) == 0x100;
    assert Exp2(16) == 0x1_0000;
    assert Exp2(20) == 0x10_0000;
    assert Exp2(24) == 0x100_0000;
    assert Exp2(28) == 0x1000_0000;
  }

  // ---- What a component may look like ----

  ghost predicate Blank(s: string) { forall i :: 0 <= i < |s| ==> IsSpace(s[i]) }

  /** White space, an optional plus sign, digits below 2^31, an optional mark for hardened, white space. */
  ghost predicate Denotes(raw: string, before: string, plus: bool, digits: string, mark: string, after: string, v: u32) {
    raw == before + (if plus then "+" else "") + digits + mark + after
    && Blank(before) && Blank(after) && digits != "" && AllDigits(digits) && Decimal(digits) < HARDENED
    && (mark == "" || (|mark| == 1 && IsMark(mark[0])))
    && v as nat == Decimal(digits) + (if mark == "" then 0 else HARDENED)
  }

  lemma {:induction false} TrimStartSplits(s: string) returns (before: string)
    ensures s == before + TrimStart(s) && Blank(before)
    ensures TrimStart(s) != "" ==> !IsSpace(TrimStart(s)[0])
  {
    if s != "" && IsSpace(s[0]) {
      var rest := TrimStartSplits(s[1..]);
      before := [s[0]] + rest;
      assert s == [s[0]] + s[1..];
    } else {
      before := "";
    }
  }

  lemma {:induction false} TrimEndSplits(s: string) returns (after: string)
    ensures s == TrimEnd(s) + after && Blank(after)
    ensures TrimEnd(s) != "" ==> !IsSpace(TrimEnd(s)[|TrimEnd(s)| - 1]) && TrimEnd(s)[0] == s[0]
  {
    hide IsSpace;
    if s != "" && IsSpace(s[|s| - 1]) {
      var rest := TrimEndSplits(s[..|s| - 1]);
      after := rest + [s[|s| - 1]];
      assert s == s[..|s| - 1] + [s[|s| - 1]];
    } else {
      after := "";
    }
  }

  lemma {:induction false} TrimStartPadded(before: string, core: string)
    requires Blank(before) && (core != "" ==> !IsSpace(core[0]))
    ensures TrimStart(before + core) == core
    decreases |before|
  {
    if before == "" {
      assert before + core == core;
    } else {
      assert (before + core)[1..] == before[1..] + core;
      TrimStartPadded(before[1..], core);
    }
  }

  lemma {:induction false} TrimEndPadded(core: string, after: string)
    requires Blank(after) && (core != "" ==> !IsSpace(core[|core| - 1]))
    ensures TrimEnd(core + after) == core
    decreases |after|
  {
    if after == "" {
      assert core + after == core;
    } else {
      var n := |after| - 1;
      assert (core + after)[..|core| + n] == core + after[..n];
      TrimEndPadded(core, after[..n]);
    }
  }

  lemma TrimPadded(before: string, core: string, after: string)
    requires Blank(before) && Blank(after) && core != "" && !IsSpace(core[0]) && !IsSpace(core[|core| - 1])
    ensures Trim(before + core + after) == core
  {
    assert before + core + after == before + (core + after);
    TrimStartPadded(before, core + after);
    TrimEndPadded(core, after);
  }

  predicate Plain(c: char) { IsDigit(c) || IsMark(c) }

  lemma PlainIsNotSpace(c: char)
    requires Plain(c) || c == 'm' || c == 'M'
    ensures !IsSpace(c)
  {
  }

  lemma PlusIsNotSpace(c: char)
    requires IsDigit(c) || c == '+'
    ensures !IsSpace(c)
  {
  }

  lemma NumberParses(plus: bool, digits: string)
    requires digits != "" && AllDigits(digits) && Decimal(digits) < HARDENED
    ensures var number := (if plus then "+" else "") + digits;
      number != "" && ParseU32(number) == Ok(Decimal(digits)) && !IsSpace(number[0]) && Plain(number[|number| - 1])
      && !IsMark(number[|number| - 1])
  {
    hide Decimal, IsSpace;
    var number := (if plus then "+" else "") + digits;
    assert number[|number| - 1] == digits[|digits| - 1];
    PlusIsNotSpace(number[0]);
    if plus {
      assert number[1..] == digits;
    } else {
      assert number == digits && IsDigit(number[0]);
    }
  }

  lemma DenotedIsParsed(raw: string, before: string, plus: bool, digits: string, mark: string, after: string, v: u32)
    requires Denotes(raw, before, plus, digits, mark, after, v)
    ensures Component(raw) == Ok(v)
  {
    hide IsSpace, Trim, Decimal, ParseU32, StripMark;
    var number := (if plus then "+" else "") + digits;
    var core := number + mark;
    NumberParses(plus, digits);
    assert raw == before + core + after;
    assert core[0] == number[0] && core[|core| - 1] == if mark == "" then number[|number| - 1] else mark[0];
    PlainIsNotSpace(core[|core| - 1]);
    TrimPadded(before, core, after);
    StripsTo(core, number, mark);
  }

  lemma StripsTo(core: string, number: string, mark: string)
    requires core == number + mark && number != "" && !IsMark(number[|number| - 1])
    requires mark == "" || (|mark| == 1 && IsMark(mark[0]))
    ensures StripMark(core) == (number, mark != "")
  {
    assert core[..|number|] == number;
    if mark == "" {
      assert core == number;
    } else {
      assert core[|core| - 1] == mark[0];
    }
  }

  lemma NumberSplits(number: string) returns (plus: bool, digits: string)
    requires ParseU32(number).Ok?
    ensures number == (if plus then "+" else "") + digits
    ensures digits != "" && AllDigits(digits) && Decimal(digits) == ParseU32(number).value
  {
    plus := number[0] == '+';
    digits := if plus then number[1..] else number;
  }

  lemma MarkSplits(comp: string)
    ensures var (number, hardened) := StripMark(comp);
      comp == number + comp[|number|..] && (hardened <==> comp[|number|..] != "")
      && (hardened ==> |comp[|number|..]| == 1 && IsMark(comp[|number|..][0]))
  {
  }

  lemma ParsedIsDenoted(raw: string) returns (before: string, plus: bool, digits: string, mark: string, after: string)
    requires Component(raw).Ok?
    ensures Denotes(raw, before, plus, digits, mark, after, Component(raw).value)
  {
    before := TrimStartSplits(raw);
    after := TrimEndSplits(TrimStart(raw));
    var comp := Trim(raw);
    var number := StripMark(comp).0;
    MarkSplits(comp);
    mark := comp[|number|..];
    plus, digits := NumberSplits(number);
    Regroup(before, if plus then "+" else "", digits, mark, after);
  }

  lemma Regroup(before: string, sign: string, digits: string, mark: string, after: string)
    ensures before + ((sign + digits + mark) + after) == before + sign + digits + mark + after
  {
  }

  /** A component is accepted with a value exactly when it is written in this form. */
  lemma ComponentIff(raw: string, v: u32)
    ensures Component(raw) == Ok(v)
      <==> exists before, plus, digits, mark, after :: Denotes(raw, before, plus, digits, mark, after, v)
  {
    if Component(raw) == Ok(v) {
      var before, plus, digits, mark, after := ParsedIsDenoted(raw);
    }
    forall before, plus, digits, mark, after | Denotes(raw, before, plus, digits, mark, after, v)
      ensures Component(raw) == Ok(v)
    {
      DenotedIsParsed(raw, before, plus, digits, mark, after, v);
    }
  }

  /** The white space there is. */
  lemma SpaceIff(c: char)
    ensures IsSpace(c)
      <==> c as int in {0x9, 0xA, 0xB, 0xC, 0xD, 0x20, 0x85, 0xA0, 0x1680, 0x2000, 0x2001, 0x2002, 0x2003, 0x2004,
                        0x2005, 0x2006, 0x2007, 0x2008, 0x2009, 0x200A, 0x2028, 0x2029, 0x202F, 0x205F, 0x3000}
  {
  }

  /** Behind digits, an apostrophe and the letter h in both cases make a component hardened, and nothing else does. */
  lemma MarkIff(digits: string, c: char)
    requires digits != "" && AllDigits(digits) && Decimal(digits) < 0x8000_0000 && !IsDigit(c) && !IsSpace(c)
    ensures Component(digits + [c]) == Ok((Decimal(digits) + 0x8000_0000) as u32) <==> c == '\'' || c == 'h' || c == 'H'
    ensures !(c == '\'' || c == 'h' || c == 'H') ==> Component(digits + [c]).Err?
  {
    hide Decimal, IsSpace;
    var core := digits + [c];
    assert "" + core + "" == core;
    PlusIsNotSpace(core[0]);
    TrimPadded("", core, "");
    if IsMark(c) {
      NumberParses(false, digits);
      assert "" + digits == digits;
      StripsTo(core, digits, [c]);
    } else {
      assert core[|core| - 1] == c;
    }
  }

  // ---- The printer ----

  function Join(parts: seq<string>): string
    requires |parts| > 0
  {
    if |parts| == 1 then parts[0] else parts[0] + "/" + Join(parts[1..])
  }

  lemma {:induction false} SplitConcat(part: string, rest: string)
    requires '/' !in part
    ensures Split(part + "/" + rest) == [part] + Split(rest)
    decreases |part|
  {
    var s := part + "/" + rest;
    if part == "" {
      assert s[1..] == rest;
    } else {
      assert s[1..] == part[1..] + "/" + rest;
      SplitConcat(part[1..], rest);
      assert part == [part[0]] + part[1..];
    }
  }

  lemma {:induction false} SplitOne(part: string)
    requires '/' !in part
    ensures Split(part) == [part]
  {
    if part == "" {
    } else {
      SplitOne(part[1..]);
      assert part == [part[0]] + part[1..];
    }
  }

  lemma {:induction false} SplitJoin(parts: seq<string>)
    requires |parts| > 0 && forall i :: 0 <= i < |parts| ==> '/' !in parts[i]
    ensures Split(Join(parts)) == parts
    decreases |parts|
  {
    if |parts| == 1 {
      SplitOne(parts[0]);
    } else {
      SplitJoin(parts[1..]);
      SplitConcat(parts[0], Join(parts[1..]));
    }
  }

  function Digits(n: nat): (s: string)
    ensures s != "" && AllDigits(s)
  {
    var d := [('0' as nat + n % 10) as char];
    if n < 10 then d else Digits(n / 10) + d
  }

  lemma {:induction false} DigitsValue(n: nat)
    ensures Decimal(Digits(n)) == n
  {
    var s := Digits(n);
    if n >= 10 {
      DigitsValue(n / 10);
      assert s[..|s| - 1] == Digits(n / 10);
    } else {
      assert s[..0] == "";
    }
  }

  /** A component in digits, with the given mark when it is hardened. */
  function Print(v: u32, mark: char): string {
    if v as nat >= HARDENED then Digits(v as nat - HARDENED) + [mark] else Digits(v as nat)
  }

  function PrintAll(path: seq<u32>, marks: seq<char>): (parts: seq<string>)
    requires |marks| == |path|
    ensures |parts| == |path|
  {
    seq(|path|, i requires 0 <= i < |path| => Print(path[i], marks[i]))
  }

  lemma PrintParses(v: u32, mark: char)
    requires IsMark(mark)
    ensures Component(Print(v, mark)) == Ok(v)
  {
    var n := if v as nat >= HARDENED then v as nat - HARDENED else v as nat;
    DigitsValue(n);
    var m := if v as nat >= HARDENED then [mark] else "";
    assert Print(v, mark) == "" + "" + Digits(n) + m + "";
    DenotedIsParsed(Print(v, mark), "", false, Digits(n), m, "", v);
  }

  /** A printed component is digits, and perhaps a mark. */
  lemma PrintIsPlain(v: u32, mark: char)
    requires IsMark(mark)
    ensures var p := Print(v, mark); p != "" && IsDigit(p[0]) && forall i :: 0 <= i < |p| ==> Plain(p[i])
  {
    var d := Digits(if v as nat >= HARDENED then v as nat - HARDENED else v as nat);
    assert forall i :: 0 <= i < |d| ==> Plain(d[i]);
  }

  ghost predicate Reads(parts: seq<string>, path: seq<u32>) {
    |parts| == |path| && forall i :: 0 <= i < |path| ==> Component(parts[i]) == Ok(path[i])
  }

  lemma {:induction false} ComponentsParse(path: seq<u32>, parts: seq<string>)
    requires Reads(parts, path)
    ensures Components(parts) == Ok(path)
    decreases |path|
  {
    hide Component;
    if path == [] {
    } else {
      var rest, tail := parts[1..], path[1..];
      assert forall i :: 0 <= i < |tail| ==> rest[i] == parts[i + 1] && tail[i] == path[i + 1];
      ComponentsParse(tail, rest);
      assert path == [path[0]] + tail;
    }
  }

  lemma {:induction false} JoinEnds(parts: seq<string>)
    requires |parts| > 0 && forall i :: 0 <= i < |parts| ==> parts[i] != ""
    ensures var j := Join(parts);
      j != "" && j[0] == parts[0][0] && j[|j| - 1] == parts[|parts| - 1][|parts[|parts| - 1]| - 1]
    decreases |parts|
  {
    if |parts| == 1 {
    } else {
      JoinEnds(parts[1..]);
    }
  }

  lemma PrintedParts(path: seq<u32>, marks: seq<char>)
    requires |path| > 0 && |marks| == |path| && forall i :: 0 <= i < |marks| ==> IsMark(marks[i])
    ensures var parts := PrintAll(path, marks);
      Split(Join(parts)) == parts && Components(parts) == Ok(path)
      && Join(parts) != "" && IsDigit(Join(parts)[0]) && Plain(Join(parts)[|Join(parts)| - 1])
  {
    var parts := PrintAll(path, marks);
    forall i | 0 <= i < |path|
      ensures Component(parts[i]) == Ok(path[i]) && parts[i] != "" && '/' !in parts[i] && IsDigit(parts[i][0])
      ensures Plain(parts[i][|parts[i]| - 1])
    {
      PrintParses(path[i], marks[i]);
      PrintIsPlain(path[i], marks[i]);
    }
    JoinEnds(parts);
    SplitJoin(parts);
    ComponentsParse(path, parts);
  }

  lemma BodyOfPadded(prefix: string, body: string, before: string, after: string)
    requires body != "" && IsDigit(body[0]) && Plain(body[|body| - 1])
    requires prefix in {"", "m/", "M/"} && Blank(before) && Blank(after)
    ensures Body(before + (prefix + body) + after) == body
  {
    var core := prefix + body;
    assert core[|core| - 1] == body[|body| - 1];
    PlainIsNotSpace(core[0]);
    PlainIsNotSpace(core[|core| - 1]);
    TrimPadded(before, core, after);
  }

  /** Every vector of child numbers reads back from its text: with any choice of hardening marks, with or without
      the leading m, and inside any white space. */
  lemma PathRoundTrip(path: seq<u32>, marks: seq<char>, prefix: string, before: string, after: string)
    requires |path| > 0 && |marks| == |path| && forall i :: 0 <= i < |marks| ==> IsMark(marks[i])
    requires prefix in {"", "m/", "M/"} && Blank(before) && Blank(after)
    ensures Path(before + (prefix + Join(PrintAll(path, marks))) + after) == Ok(path)
  {
    PrintedParts(path, marks);
    BodyOfPadded(prefix, Join(PrintAll(path, marks)), before, after);
  }

  lemma ZeroDigit()
    ensures Digits(0) == "0"
  {
  }

  lemma TwoDigits(n: nat)
    requires 10 <= n < 100
    ensures Digits(n) == [('0' as nat + n / 10) as char, ('0' as nat + n % 10) as char]
  {
    assert Digits(n / 10) == [('0' as nat + n / 10) as char];
  }

  lemma PrintsAs(v: u32, n: nat, digits: string)
    requires n < HARDENED && Digits(n) == digits
    ensures v as nat == n ==> Print(v, '\'') == digits
    ensures v as nat == n + HARDENED ==> Print(v, '\'') == digits + "'"
  {
  }

  lemma JoinFive(a: string, b: string, c: string, d: string, e: string)
    ensures Join([a, b, c, d, e]) == a + "/" + (b + "/" + (c + "/" + (d + "/" + e)))
  {
    assert Join([e]) == e && [d, e][1..] == [e];
    assert Join([d, e]) == d + "/" + e && [c, d, e][1..] == [d, e];
    assert Join([c, d, e]) == c + "/" + Join([d, e]) && [b, c, d, e][1..] == [c, d, e];
    assert Join([b, c, d, e]) == b + "/" + Join([c, d, e]) && [a, b, c, d, e][1..] == [b, c, d, e];
  }

  lemma UsualParts(path: seq<u32>)
    requires path == [0x8000_002C, 0x8000_003C, 0x8000_0000, 0, 0]
    ensures PrintAll(path, seq(5, i => '\'')) == ["44'", "60'", "0'", "0", "0"]
  {
    hide Digits, Print;
    TwoDigits(44);
    TwoDigits(60);
    ZeroDigit();
    PrintsAs(path[0], 44, "44");
    PrintsAs(path[1], 60, "60");
    PrintsAs(path[2], 0, "0");
    PrintsAs(0, 0, "0");
    assert "44" + "'" == "44'" && "60" + "'" == "60'" && "0" + "'" == "0'";
  }

  /** Ethereum's first account, in its usual form. */
  lemma UsualPath()
    ensures Path("m/44'/60'/0'/0/0") == Ok([0x8000_002C, 0x8000_003C, 0x8000_0000, 0, 0])
  {
    hide Path, Join, PrintAll;
    var path: seq<u32> := [0x8000_002C, 0x8000_003C, 0x8000_0000, 0, 0];
    UsualParts(path);
    JoinFive("44'", "60'", "0'", "0", "0");
    PathRoundTrip(path, seq(5, i => '\''), "m/", "", "");
    assert "" + ("m/" + ("44'" + "/" + ("60'" + "/" + ("0'" + "/" + ("0" + "/" + "0"))))) + "" == "m/44'/60'/0'/0/0";
  }

  lemma ComponentsOfNone(parts: seq<string>)
    requires |parts| > 0
    ensures Components(parts) != Ok([])
  {
  }

  lemma BehindPrefix(prefix: string, rest: string, t: string)
    requires prefix <= t
    ensures t[|prefix|..] == rest <==> t == prefix + rest
  {
    assert t == prefix + t[|prefix|..];
  }

  lemma BodyIsRootIff(s: string)
    ensures Body(s) in {"", "m", "M"} <==> Trim(s) in {"", "m", "M", "m/", "M/", "m/m", "m/M", "M/m", "M/M"}
  {
    var t := Trim(s);
    assert "m/" + "" == "m/" && "m/" + "m" == "m/m" && "m/" + "M" == "m/M";
    assert "M/" + "" == "M/" && "M/" + "m" == "M/m" && "M/" + "M" == "M/M";
    if "m/" <= t {
      assert t[0] == 'm' && t[1] == '/';
      BehindPrefix("m/", "", t);
      BehindPrefix("m/", "m", t);
      BehindPrefix("m/", "M", t);
    } else if "M/" <= t {
      assert t[0] == 'M' && t[1] == '/';
      BehindPrefix("M/", "", t);
      BehindPrefix("M/", "m", t);
      BehindPrefix("M/", "M", t);
    } else {
      assert "m/" <= "m/" && "m/" <= "m/m" && "m/" <= "m/M" && "M/" <= "M/" && "M/" <= "M/m" && "M/" <= "M/M";
    }
  }

  /** The texts that mean the root: besides the intended ones, a second m behind the first slash. */
  lemma EmptyPathIff(s: string)
    ensures Path(s) == Ok([]) <==> Trim(s) in {"", "m", "M", "m/", "M/", "m/m", "m/M", "M/m", "M/M"}
  {
    BodyIsRootIff(s);
    ComponentsOfNone(Split(Body(s)));
  }

  // ---- What a path may look like ----

  lemma JoinOne(part: string)
    ensures Join([part]) == part
  {
  }

  lemma JoinMore(part: string, more: seq<string>)
    requires |more| > 0
    ensures Join([part] + more) == part + "/" + Join(more)
  {
    assert ([part] + more)[1..] == more;
  }

  lemma JoinBehindSlash(rest: seq<string>)
    requires |rest| > 0
    ensures Join([""] + rest) == "/" + Join(rest)
  {
    JoinMore("", rest);
  }

  lemma JoinGrownFirst(c: char, first: string, more: seq<string>)
    ensures Join([[c] + first] + more) == [c] + Join([first] + more)
  {
    hide Join;
    if more == [] {
      assert [first] + more == [first] && [[c] + first] + more == [[c] + first];
      JoinOne(first);
      JoinOne([c] + first);
    } else {
      JoinMore(first, more);
      JoinMore([c] + first, more);
      Regrouped([c], first, "/", Join(more));
    }
  }

  lemma Regrouped(a: string, b: string, c: string, d: string)
    ensures a + (b + c + d) == a + b + c + d
  {
  }

  lemma {:induction false} JoinSplit(s: string)
    ensures Join(Split(s)) == s && forall i :: 0 <= i < |Split(s)| ==> '/' !in Split(s)[i]
  {
    hide Join;
    if s == "" {
      JoinOne("");
    } else {
      var rest := Split(s[1..]);
      JoinSplit(s[1..]);
      assert s == [s[0]] + s[1..];
      assert rest == [rest[0]] + rest[1..];
      if s[0] == '/' { JoinBehindSlash(rest); } else { JoinGrownFirst(s[0], rest[0], rest[1..]); }
    }
  }

  lemma {:induction false} ComponentsRead(parts: seq<string>)
    requires Components(parts).Ok?
    ensures Reads(parts, Components(parts).value)
  {
    hide Component;
    if parts == [] {
    } else {
      ComponentsRead(parts[1..]);
      var path := Components(parts).value;
      assert forall i :: 1 <= i < |path| ==> path[i] == path[1..][i - 1] && parts[i] == parts[1..][i - 1];
    }
  }

  lemma RootIsNoComponent()
    ensures Component("").Err? && Component("m").Err? && Component("M").Err?
  {
    assert "" + "m" + "" == "m" && "" + "M" + "" == "M";
    TrimPadded("", "m", "");
    TrimPadded("", "M", "");
  }

  /** Components between slashes, behind nothing or an m with its slash, in any white space. */
  ghost predicate Writes(s: string, prefix: string, parts: seq<string>, path: seq<u32>) {
    prefix in {"", "m/", "M/"} && |parts| > 0 && Trim(s) == prefix + Join(parts)
    && (forall i :: 0 <= i < |parts| ==> '/' !in parts[i]) && Reads(parts, path)
  }

  lemma PathIsWritten(s: string, path: seq<u32>) returns (prefix: string, parts: seq<string>)
    requires Path(s) == Ok(path) && path != []
    ensures Writes(s, prefix, parts, path)
  {
    hide Component;
    var t := Trim(s);
    prefix := if "m/" <= t then "m/" else if "M/" <= t then "M/" else "";
    parts := Split(Body(s));
    assert t == prefix + Body(s);
    JoinSplit(Body(s));
    ComponentsRead(parts);
  }

  lemma WrittenIsPath(s: string, prefix: string, parts: seq<string>, path: seq<u32>)
    requires Writes(s, prefix, parts, path)
    ensures Path(s) == Ok(path)
  {
    hide Component, Join, Split, Components;
    var t, body := Trim(s), Join(parts);
    SplitJoin(parts);
    RootIsNoComponent();
    ComponentsParse(path, parts);
    NoRootBehind(body, parts, path);
    if prefix == "" { assert t == body; } else { assert prefix <= t && t[2..] == body; }
  }

  lemma FirstPart(body: string)
    ensures body in {"", "m", "M"} ==> Split(body)[0] == body
    ensures "m/" <= body ==> Split(body)[0] == "m"
    ensures "M/" <= body ==> Split(body)[0] == "M"
  {
    if body in {"", "m", "M"} { SplitOne(body); }
    if "m/" <= body {
      assert body == "m" + "/" + body[2..];
      SplitConcat("m", body[2..]);
    }
    if "M/" <= body {
      assert body == "M" + "/" + body[2..];
      SplitConcat("M", body[2..]);
    }
  }

  /** A joined path that reads does not begin with an m of its own. */
  lemma NoRootBehind(body: string, parts: seq<string>, path: seq<u32>)
    requires Split(body) == parts && Reads(parts, path)
    ensures body !in {"", "m", "M"} && !("m/" <= body) && !("M/" <= body)
  {
    hide Component, Split;
    RootIsNoComponent();
    FirstPart(body);
    assert Component(parts[0]) == Ok(path[0]);
  }

  /** A text is accepted with a path exactly when it is one of the texts for the root and the path is empty, or it is
      written as components that denote the path's numbers. */
  lemma PathIff(s: string, path: seq<u32>)
    ensures Path(s) == Ok(path)
      <==> (path == [] && Trim(s) in {"", "m", "M", "m/", "M/", "m/m", "m/M", "M/m", "M/M"})
           || exists prefix, parts :: Writes(s, prefix, parts, path)
  {
    EmptyPathIff(s);
    if Path(s) == Ok(path) && path != [] {
      var prefix, parts := PathIsWritten(s, path);
    }
    forall prefix, parts | Writes(s, prefix, parts, path) ensures Path(s) == Ok(path) {
      WrittenIsPath(s, prefix, parts, path);
    }
  }

  /** The first of the unintended ones. */
  lemma SecondRootIsTaken()
    ensures Path("m/m") == Ok([])
  {
    EmptyPathIff("m/m");
    assert "" + "m/m" + "" == "m/m";
    TrimPadded("", "m/m", "");
  }
}
