/** Compound types as text: the server's type table and the strings in which types travel (src/server/tagbase.c). */
module CdtText {
  import opened Common
  import opened Types
  import opened Text

  const DAX_TAGNAME_SIZE := 32

  // ---------------------------------------------------------------- names

  predicate ValidName(s: string) {
    |s| <= DAX_TAGNAME_SIZE && s != "" && (IsAlpha(s[0]) || s[0] == '_') && forall k :: 0 <= k < |s| ==> IsWord(s[k])
  }

  predicate LetterCode(c: int) { 65 <= c <= 90 || 97 <= c <= 122 }

  /** Names by their character codes: 1 to 32 letters, digits and underscores, the first of them no digit. */
  lemma ValidNameIs(s: string)
    ensures ValidName(s) <==>
      && 1 <= |s| <= 32
      && (LetterCode(s[0] as int) || s[0] as int == 95)
      && forall k :: 0 <= k < |s| ==> LetterCode(s[k] as int) || s[k] as int == 95 || 48 <= s[k] as int <= 57
  {}

  /** `_validate_name` */
  method ValidateName(name: string) returns (code: int)
    ensures code == NameCode(name)
    ensures code == 0 <==> ValidName(name)
  {
    if |name| > DAX_TAGNAME_SIZE {
      return ERR_2BIG;
    }
    if name == "" || (!IsAlpha(name[0]) && name[0] != '_') {
      return ERR_ARG;
    }
    for n := 1 to |name|
      invariant forall k :: 0 <= k < n ==> IsWord(name[k])
    {
      if !IsAlpha(name[n]) && name[n] != '_' && !IsDigit(name[n]) {
        return ERR_ARG;
      }
    }
    return 0;
  }

  function NameCode(name: string): int {
    if |name| > DAX_TAGNAME_SIZE then ERR_2BIG else if ValidName(name) then 0 else ERR_ARG
  }

  const BASES: seq<Base> :=
    [BOOL, BYTE, SINT, CHAR, WORD, INT, UINT, DWORD, DINT, UDINT, TIME, REAL, LWORD, LINT, ULINT, LREAL]

  function BaseName(b: Base): (s: string)
    ensures ValidName(s)
  {
    match b
    case BOOL => "BOOL" case BYTE => "BYTE" case SINT => "SINT" case CHAR => "CHAR"
    case WORD => "WORD" case INT => "INT" case UINT => "UINT" case DWORD => "DWORD"
    case DINT => "DINT" case UDINT => "UDINT" case TIME => "TIME" case REAL => "REAL"
    case LWORD => "LWORD" case LINT => "LINT" case ULINT => "ULINT" case LREAL => "LREAL"
  }

  /** `cdt_get_name` */
  function TypeName(reg: Registry, t: TagType): string
    requires ValidType(reg, t)
  {
    match t case Basic(b) => BaseName(b) case Custom(i) => reg[i].name
  }

  /** `cdt_get_type`: base types first, then the oldest compound type, ignoring case. */
  function GetType(reg: Registry, name: string): (t: Option<TagType>)
    ensures t.Some? ==> ValidType(reg, t.value) && SameText(name, TypeName(reg, t.value))
    ensures t.Some? && t.value.Custom? ==> forall j :: 0 <= j < t.value.index ==> !SameText(name, reg[j].name)
    ensures t.None? ==> forall j :: 0 <= j < |reg| ==> !SameText(name, reg[j].name)
  {
    var b := FindBase(BASES, name);
    if b.Some? then Some(Basic(b.value))
    else
      var i := FindType(reg, name);
      if i < |reg| then Some(Custom(i)) else None
  }

  function FindBase(bases: seq<Base>, name: string): (b: Option<Base>)
    ensures b.Some? ==> SameText(name, BaseName(b.value)) && b.value in bases
    ensures b.None? ==> forall c :: c in bases ==> !SameText(name, BaseName(c))
  {
    if bases == [] then None
    else if SameText(name, BaseName(bases[0])) then Some(bases[0])
    else FindBase(bases[1..], name)
  }

  function FindType(reg: Registry, name: string): (i: nat)
    ensures i <= |reg| && (i < |reg| ==> SameText(name, reg[i].name))
    ensures forall j :: 0 <= j < i ==> !SameText(name, reg[j].name)
  {
    if reg == [] || SameText(name, reg[0].name) then 0 else 1 + FindType(reg[1..], name)
  }

  /** Exactly which type a name stands for: a base type whatever the case, or else the oldest compound type with that
      name in any case. */
  lemma GetTypeIs(reg: Registry, name: string, t: TagType)
    ensures GetType(reg, name) == Some(t) <==>
      match t
      case Basic(b) => Variants(name, BaseName(b))
      case Custom(i) =>
        && i < |reg| && Variants(name, reg[i].name)
        && (forall j :: 0 <= j < i ==> !Variants(name, reg[j].name))
        && forall b :: !Variants(name, BaseName(b))
  {
    forall s: string ensures SameText(name, s) <==> Variants(name, s) {
      SameTextIs(name, s);
    }
    hide SameText, Variants;
    AllBases();
    if t.Basic? && Variants(name, BaseName(t.base)) {
      OneBase(name, t.base, FindBase(BASES, name).value);
    }
  }

  /** The position of a base type in the list. */
  function Rank(b: Base): nat {
    match b
    case BOOL => 0 case BYTE => 1 case SINT => 2 case CHAR => 3 case WORD => 4 case INT => 5 case UINT => 6
    case DWORD => 7 case DINT => 8 case UDINT => 9 case TIME => 10 case REAL => 11 case LWORD => 12 case LINT => 13
    case ULINT => 14 case LREAL => 15
  }

  lemma AllBases()
    ensures forall b: Base :: b in BASES
  {
    forall b: Base ensures b in BASES {
      assert BASES[Rank(b)] == b;
    }
  }

  lemma OneBase(name: string, a: Base, b: Base)
    requires SameText(name, BaseName(a)) && SameText(name, BaseName(b))
    ensures a == b
  {
    DistinctBases(a, b);
  }

  /** The name, code and width of every base type are those of one line of this table. */
  lemma BaseTable(b: Base)
    ensures (BaseName(b), TypeCode(b), BaseBits(b)) in {
      ("BOOL", 0x10, 1), ("BYTE", 0x03, 8), ("SINT", 0x13, 8), ("CHAR", 0x23, 8), ("WORD", 0x04, 16), ("INT", 0x14, 16),
      ("UINT", 0x24, 16), ("DWORD", 0x05, 32), ("DINT", 0x15, 32), ("UDINT", 0x25, 32), ("REAL", 0x35, 32),
      ("LWORD", 0x06, 64), ("LINT", 0x16, 64), ("ULINT", 0x26, 64), ("TIME", 0x36, 64), ("LREAL", 0x46, 64)}
  {}

  /** The case of a name makes no difference to the type it stands for. */
  lemma GetTypeVariant(reg: Registry, a: string, b: string)
    requires Variants(a, b)
    ensures GetType(reg, a) == GetType(reg, b)
  {
    forall s: string ensures Variants(a, s) <==> Variants(b, s) {
      SameTextIs(a, s);
      SameTextIs(b, s);
      SameTextIs(a, b);
    }
    hide Variants, GetType;
    var x, y := GetType(reg, a), GetType(reg, b);
    if x.Some? {
      GetTypeIs(reg, a, x.value);
      GetTypeIs(reg, b, x.value);
    } else if y.Some? {
      GetTypeIs(reg, a, y.value);
      GetTypeIs(reg, b, y.value);
    }
  }

  // ---------------------------------------------------------------- printing

  function MemberText(reg: Registry, m: Member): string
    requires ValidType(reg, m.typ)
  {
    m.name + "," + TypeName(reg, m.typ) + "," + PrintInt(m.count)
  }

  ghost predicate Typed(reg: Registry, ms: seq<Member>) {
    forall k :: 0 <= k < |ms| ==> ValidType(reg, ms[k].typ)
  }

  function MemberTexts(reg: Registry, ms: seq<Member>): (ts: seq<string>)
    requires Typed(reg, ms)
    ensures |ts| == |ms| && forall k :: 0 <= k < |ms| ==> ts[k] == MemberText(reg, ms[k])
  {
    seq(|ms|, k requires 0 <= k < |ms| => MemberText(reg, ms[k]))
  }

  /** Each part preceded by a colon. */
  function Colons(parts: seq<string>): string {
    if parts == [] then "" else ":" + parts[0] + Colons(parts[1..])
  }

  function Serialize(reg: Registry, cdt: Cdt): string
    requires Typed(reg, cdt.members)
  {
    cdt.name + Colons(MemberTexts(reg, cdt.members))
  }

  /** `serialize_datatype`: a pass that measures and a pass that builds. */
  method SerializeDatatype(reg: Registry, i: nat) returns (str: string, size: int)
    requires i < |reg| ==> Typed(reg, reg[i].members)
    ensures i >= |reg| ==> size == ERR_ARG
    ensures i < |reg| ==> str == Serialize(reg, reg[i]) && size == |str| + 1
  {
    if i >= |reg| {
      return "", ERR_ARG;
    }
    size := Measure(reg, reg[i]);
    str := Build(reg, reg[i]);
  }

  method Measure(reg: Registry, cdt: Cdt) returns (size: nat)
    requires Typed(reg, cdt.members)
    ensures size == |Serialize(reg, cdt)| + 1
  {
    hide Colons, MemberText, TypeName;
    ghost var parts := MemberTexts(reg, cdt.members);
    NoColons();
    size := |cdt.name|;
    for k := 0 to |cdt.members|
      invariant size == |cdt.name| + |Colons(parts[..k])|
    {
      var m := cdt.members[k];
      Appended("", reg, m);
      NextPart(cdt.name, parts, k);
      size := size + |m.name|;
      size := size + |TypeName(reg, m.typ)|;
      var test := PrintInt(m.count);
      size := size + |test|;
      size := size + 3;
    }
    assert parts[..|cdt.members|] == parts;
    size := size + 1;
  }

  method Build(reg: Registry, cdt: Cdt) returns (str: string)
    requires Typed(reg, cdt.members)
    ensures str == Serialize(reg, cdt)
  {
    hide Colons, MemberText, TypeName;
    ghost var parts := MemberTexts(reg, cdt.members);
    NoColons();
    str := cdt.name;
    for k := 0 to |cdt.members|
      invariant str == cdt.name + Colons(parts[..k])
    {
      var m := cdt.members[k];
      Appended(str, reg, m);
      NextPart(cdt.name, parts, k);
      str := str + ":";
      str := str + m.name;
      str := str + ",";
      str := str + TypeName(reg, m.typ);
      str := str + ",";
      var test := PrintInt(m.count);
      str := str + test;
    }
    assert parts[..|cdt.members|] == parts;
  }

  lemma Appended(s: string, reg: Registry, m: Member)
    requires ValidType(reg, m.typ)
    ensures s + ":" + m.name + "," + TypeName(reg, m.typ) + "," + PrintInt(m.count) == s + ":" + MemberText(reg, m)
    ensures |MemberText(reg, m)| == |m.name| + |TypeName(reg, m.typ)| + |PrintInt(m.count)| + 2
  {}

  lemma NoColons()
    ensures Colons([]) == ""
  {}

  lemma NextPart(name: string, parts: seq<string>, k: nat)
    requires k < |parts|
    ensures name + Colons(parts[..k + 1]) == name + Colons(parts[..k]) + ":" + parts[k]
    ensures |Colons(parts[..k + 1])| == |Colons(parts[..k])| + 1 + |parts[k]|
  {
    ColonsSnoc(parts[..k], parts[k]);
    assert parts[..k + 1] == parts[..k] + [parts[k]];
  }

  lemma {:induction false} ColonsSnoc(parts: seq<string>, last: string)
    ensures Colons(parts + [last]) == Colons(parts) + ":" + last
  {
    if parts == [] {
      assert [last][1..] == [];
      assert Colons([last]) == ":" + last;
    } else {
      assert (parts + [last])[1..] == parts[1..] + [last];
      ColonsSnoc(parts[1..], last);
    }
  }

  // ---------------------------------------------------------------- parsing on the server

  ghost predicate Named(ms: seq<Member>, name: string) {
    exists k :: 0 <= k < |ms| && SameText(name, ms[k].name)
  }

  /** The member that a description adds to those in `have`, or why it is refused. */
  ghost function ParseMember(reg: Registry, have: seq<Member>, desc: string): Result<Member> {
    var t := Tokens(desc, ',');
    if |t| < 3 then Err(ERR_ARG)
    else if NameCode(t[0]) != 0 then Err(NameCode(t[0]))
    else if GetType(reg, t[1]).None? then Err(ERR_ARG)
    else if Named(have, t[0]) then Err(ERR_DUPL)
    else Ok(Member(t[0], GetType(reg, t[1]).value, Strtol0(t[2])))
  }

  ghost function ParseMembers(reg: Registry, have: seq<Member>, descs: seq<string>): Result<seq<Member>>
    decreases |descs|
  {
    if descs == [] then Ok(have)
    else
      var m := ParseMember(reg, have, descs[0]);
      if m.Err? then Err(m.code) else ParseMembers(reg, have + [m.value], descs[1..])
  }

  /** `cdt_append` */
  method CdtAppend(reg: Registry, have: seq<Member>, desc: string) returns (r: Result<seq<Member>>)
    ensures var m := ParseMember(reg, have, desc);
      r == if m.Ok? then Ok(have + [m.value]) else Err(m.code)
  {
    hide Tokens, GetType, Strtol0, NameCode, ValidName, SameText;
    var t := Tokens(desc, ',');
    if |t| < 3 {
      return Err(ERR_ARG);
    }
    var count := Strtol0(t[2]);
    var code := ValidateName(t[0]);
    if code != 0 {
      return Err(code);
    }
    var typ := GetType(reg, t[1]);
    if typ.None? {
      return Err(ERR_ARG);
    }
    for k := 0 to |have|
      invariant !Named(have[..k], t[0])
    {
      if SameText(t[0], have[k].name) {
        return Err(ERR_DUPL);
      }
    }
    assert have[..|have|] == have;
    return Ok(have + [Member(t[0], typ.value, count)]);
  }

  /** The effect of a creation request on the type table, and its answer. */
  ghost function Create(reg: Registry, str: string): (Registry, Result<TagType>)
    requires Tokens(str, ':') != [] && Printable(reg)
  {
    var t := Tokens(str, ':');
    var found := GetType(reg, t[0]);
    if NameCode(t[0]) != 0 then (reg, Err(NameCode(t[0])))
    else if found.Some? then
      if found.value.Custom? && Serialize(reg, reg[found.value.index]) == str then (reg, Ok(found.value))
      else (reg, Err(ERR_DUPL))
    else
      var ms := ParseMembers(reg, [], t[1..]);
      if ms.Err? then (reg, Err(ms.code)) else (reg + [Cdt(t[0], ms.value)], Ok(Custom(|reg|)))
  }

  ghost predicate Printable(reg: Registry) {
    forall i :: 0 <= i < |reg| ==> Typed(reg, reg[i].members)
  }

  /** The server's array of types. */
  class TypeTable {
    var types: Registry

    constructor ()
      ensures types == []
    {
      types := [];
    }

    /** `cdt_create` */
    method CdtCreate(str: string) returns (r: Result<TagType>)
      requires Tokens(str, ':') != [] && Printable(types)
      modifies this
      ensures (types, r) == Create(old(types), str)
    {
      var t := Tokens(str, ':');
      var code := ValidateName(t[0]);
      if code != 0 {
        return Err(code);
      }
      var found := GetType(types, t[0]);
      if found.Some? {
        if found.value.Basic? {
          return Err(ERR_DUPL);
        }
        var serial, size := SerializeDatatype(types, found.value.index);
        if serial != str {
          return Err(ERR_DUPL);
        } else {
          return Ok(found.value);
        }
      }
      var members: seq<Member> := [];
      for k := 1 to |t|
        invariant types == old(types)
        invariant ParseMembers(types, [], t[1..]) == ParseMembers(types, members, t[k..])
      {
        var next := CdtAppend(types, members, t[k]);
        assert t[k..][0] == t[k] && t[k..][1..] == t[k + 1..];
        if next.Err? {
          return Err(next.code);
        }
        members := next.value;
      }
      types := types + [Cdt(t[0], members)];
      return Ok(Custom(|types| - 1));
    }
  }

  /** A request for a name that is taken, in whatever case, never adds a type. */
  lemma CreateVariant(reg: Registry, str: string, name: string)
    requires Tokens(str, ':') != [] && Printable(reg) && Variants(Tokens(str, ':')[0], name)
    requires (exists b :: name == BaseName(b)) || (exists i :: 0 <= i < |reg| && reg[i].name == name)
    ensures Create(reg, str).0 == reg
  {
    var t := Tokens(str, ':')[0];
    hide Variants, ParseMembers, Serialize, Tokens, BaseName;
    if GetType(reg, t).None? {
      GetTypeVariant(reg, t, name);
      NameTaken(reg, name);
    }
  }

  lemma NameTaken(reg: Registry, name: string)
    requires (exists b :: name == BaseName(b)) || (exists i :: 0 <= i < |reg| && reg[i].name == name)
    ensures GetType(reg, name).Some?
  {
    hide BaseName;
    AllBases();
    assert SameText(name, name);
  }

  /** A member is refused as a duplicate exactly when its description is otherwise good and an earlier member has its
      name in some case. */
  lemma MemberVariant(reg: Registry, have: seq<Member>, desc: string)
    requires var t := Tokens(desc, ','); |t| >= 3 && ValidName(t[0]) && GetType(reg, t[1]).Some?
    ensures ParseMember(reg, have, desc) == Err(ERR_DUPL) <==>
      exists k :: 0 <= k < |have| && Variants(Tokens(desc, ',')[0], have[k].name)
  {
    var name := Tokens(desc, ',')[0];
    forall s: string ensures SameText(name, s) <==> Variants(name, s) {
      SameTextIs(name, s);
    }
    hide SameText, Variants, Tokens, ValidName, GetType;
  }

  // ---------------------------------------------------------------- what every type table satisfies

  ghost predicate LegalMembers(prev: Registry, ms: seq<Member>) {
    && Typed(prev, ms)
    && (forall k :: 0 <= k < |ms| ==> ValidName(ms[k].name))
    && (forall j, k :: 0 <= j < k < |ms| ==> !SameText(ms[k].name, ms[j].name))
  }

  /** Type `i` has a name of its own and members that use earlier types only. */
  ghost predicate LegalType(reg: Registry, i: nat)
    requires i < |reg|
  {
    ValidName(reg[i].name) && GetType(reg[..i], reg[i].name).None? && LegalMembers(reg[..i], reg[i].members)
  }

  ghost predicate Legal(reg: Registry) {
    forall i :: 0 <= i < |reg| ==> LegalType(reg, i)
  }

  lemma LegalPrintable(reg: Registry)
    requires Legal(reg)
    ensures Printable(reg) && Backward(reg)
  {
    forall i | 0 <= i < |reg|
      ensures Typed(reg[..i], reg[i].members)
    {
      assert LegalType(reg, i);
    }
  }

  lemma {:induction false} ParsedLegal(reg: Registry, have: seq<Member>, descs: seq<string>)
    requires LegalMembers(reg, have) && ParseMembers(reg, have, descs).Ok?
    ensures LegalMembers(reg, ParseMembers(reg, have, descs).value)
    decreases |descs|
  {
    hide Tokens, GetType, Strtol0, ValidName, SameText;
    if descs != [] {
      ParsedLegal(reg, have + [ParseMember(reg, have, descs[0]).value], descs[1..]);
    }
  }

  /** A request leaves a legal table legal, and only ever adds a type at the end. */
  lemma CreateLegal(reg: Registry, str: string)
    requires Legal(reg) && Tokens(str, ':') != [] && Printable(reg)
    ensures var (after, r) := Create(reg, str);
      && Legal(after)
      && reg <= after
      && (r.Err? ==> after == reg)
      && (r.Ok? ==> r.value.Custom? && r.value.index < |after|)
  {
    hide Tokens, GetType, ValidName, ParseMembers, Serialize;
    var t := Tokens(str, ':');
    var after := Create(reg, str).0;
    if |after| > |reg| {
      ParsedLegal(reg, [], t[1..]);
      assert after[..|reg|] == reg;
      assert LegalType(after, |reg|);
    }
    forall i | 0 <= i < |reg| ensures LegalType(after, i) {
      assert LegalType(reg, i);
      assert after[..i] == reg[..i];
    }
  }

  /** The table after a run of requests. */
  ghost function Requests(strs: seq<string>): (reg: Registry)
    requires forall s :: s in strs ==> Tokens(s, ':') != []
    ensures Legal(reg) && Printable(reg) && Backward(reg)
  {
    if strs == [] then []
    else
      var reg := Requests(strs[..|strs| - 1]);
      assert strs[|strs| - 1] in strs;
      CreateLegal(reg, strs[|strs| - 1]);
      LegalPrintable(Create(reg, strs[|strs| - 1]).0);
      Create(reg, strs[|strs| - 1]).0
  }

  // ---------------------------------------------------------------- printing and parsing undo each other

  lemma BaseFound(b: Base)
    ensures FindBase(BASES, BaseName(b)) == Some(b)
  {
    var found := FindBase(BASES, BaseName(b));
    assert b in BASES;
    assert SameText(BaseName(b), BaseName(b));
    DistinctBases(b, found.value);
  }

  lemma DistinctBases(a: Base, b: Base)
    requires SameText(BaseName(a), BaseName(b))
    ensures a == b
  {
    var s, t := BaseName(a), BaseName(b);
    assert |s| > 0 ==> Lower(s[0]) == Lower(t[0]);
    assert |s| > 1 ==> Lower(s[1]) == Lower(t[1]);
    assert |s| > 2 ==> Lower(s[2]) == Lower(t[2]);
  }

  /** The printed name of a type leads back to the type. */
  lemma TypeFound(reg: Registry, i: nat, t: TagType)
    requires Legal(reg) && i <= |reg| && ValidType(reg[..i], t)
    ensures TypeName(reg[..i], t) == TypeName(reg, t)
    ensures GetType(reg[..i], TypeName(reg, t)) == Some(t)
  {
    match t
    case Basic(b) =>
      BaseFound(b);
    case Custom(j) =>
      assert LegalType(reg, j);
      assert reg[..i][..j] == reg[..j];
      var name := reg[j].name;
      assert FindBase(BASES, name).None?;
      assert SameText(name, reg[..i][j].name);
      assert forall n :: 0 <= n < j ==> reg[..j][n] == reg[..i][n];
  }

  lemma WordsOnly(s: string)
    requires ValidName(s)
    ensures ',' !in s && ':' !in s && s != ""
  {}

  lemma NumberOnly(n: int)
    ensures ',' !in PrintInt(n) && ':' !in PrintInt(n) && PrintInt(n) != ""
  {}

  lemma NameOfType(reg: Registry, i: nat, t: TagType)
    requires Legal(reg) && i <= |reg| && ValidType(reg[..i], t)
    ensures ValidName(TypeName(reg, t))
  {
    if t.Custom? {
      assert LegalType(reg, t.index);
    }
  }

  /** A printed member splits into its three fields and contains no colon. */
  lemma MemberTokens(reg: Registry, i: nat, m: Member)
    requires Legal(reg) && i <= |reg| && ValidType(reg[..i], m.typ) && ValidName(m.name)
    ensures var text := MemberText(reg, m);
      && Tokens(text, ',') == [m.name, TypeName(reg, m.typ), PrintInt(m.count)]
      && ':' !in text && text != ""
  {
    hide Tokens, TypeName, PrintInt, ValidName;
    NameOfType(reg, i, m.typ);
    WordsOnly(m.name);
    WordsOnly(TypeName(reg, m.typ));
    NumberOnly(m.count);
    ThreeTokens(m.name, TypeName(reg, m.typ), PrintInt(m.count));
  }

  lemma ThreeTokens(a: string, b: string, c: string)
    requires a != "" && b != "" && c != "" && ',' !in a && ',' !in b && ',' !in c
    ensures Tokens(a + "," + b + "," + c, ',') == [a, b, c]
  {
    hide Tokens;
    assert a + "," + b + "," + c == a + ("," + (b + ("," + c)));
    TokensCons(a, "," + (b + ("," + c)), ',');
    TokensSkip(b + ("," + c), ',');
    TokensCons(b, "," + c, ',');
    TokensSkip(c, ',');
    assert c + "" == c;
    TokensCons(c, "", ',');
    NoTokens(',');
  }

  lemma TokensSkip(s: string, delim: char)
    ensures Tokens([delim] + s, delim) == Tokens(s, delim)
  {
    assert ([delim] + s)[1..] == s;
  }

  lemma NoTokens(delim: char)
    ensures Tokens("", delim) == []
  {}

  /** A list of colon-free parts is recovered by splitting at the colons. */
  lemma {:induction false} ColonTokens(parts: seq<string>)
    requires forall k :: 0 <= k < |parts| ==> parts[k] != "" && ':' !in parts[k]
    ensures Tokens(Colons(parts), ':') == parts
    decreases |parts|
  {
    hide Tokens;
    NoTokens(':');
    if parts != [] {
      var rest := Colons(parts[1..]);
      ColonTokens(parts[1..]);
      assert Colons(parts) == ":" + (parts[0] + rest);
      TokensSkip(parts[0] + rest, ':');
      TokensCons(parts[0], rest, ':');
    }
  }

  lemma SerializedTokens(reg: Registry, i: nat)
    requires Legal(reg) && i < |reg| && Typed(reg, reg[i].members)
    ensures Tokens(Serialize(reg, reg[i]), ':') == [reg[i].name] + MemberTexts(reg, reg[i].members)
  {
    hide Tokens, ValidName, GetType, MemberText, Colons;
    var ms := reg[i].members;
    var parts := MemberTexts(reg, ms);
    assert LegalType(reg, i);
    forall k | 0 <= k < |ms| ensures parts[k] != "" && ':' !in parts[k] {
      MemberTokens(reg, i, ms[k]);
    }
    WordsOnly(reg[i].name);
    ColonTokens(parts);
    ColonsStart(parts);
    TokensCons(reg[i].name, Colons(parts), ':');
  }

  lemma ColonsStart(parts: seq<string>)
    ensures Colons(parts) != "" ==> Colons(parts)[0] == ':'
  {}

  lemma {:induction false} MembersRebuilt(reg: Registry, i: nat, k: nat)
    requires Legal(reg) && i < |reg| && k <= |reg[i].members| && Typed(reg, reg[i].members)
    ensures ParseMembers(reg[..i], reg[i].members[..k], MemberTexts(reg, reg[i].members)[k..]) == Ok(reg[i].members)
    decreases |reg[i].members| - k
  {
    hide Tokens, ValidName, GetType, MemberText, SameText, ParseMember;
    var ms := reg[i].members;
    var texts := MemberTexts(reg, ms);
    if k == |ms| {
      assert ms[..k] == ms;
    } else {
      MemberRebuilt(reg, i, k);
      MembersRebuilt(reg, i, k + 1);
      assert texts[k..][0] == MemberText(reg, ms[k]) && texts[k..][1..] == texts[k + 1..];
      assert ms[..k + 1] == ms[..k] + [ms[k]];
    }
  }

  lemma MemberRebuilt(reg: Registry, i: nat, k: nat)
    requires Legal(reg) && i < |reg| && k < |reg[i].members| && Typed(reg, reg[i].members)
    ensures var m := reg[i].members[k];
      ParseMember(reg[..i], reg[i].members[..k], MemberText(reg, m)) == Ok(m)
  {
    hide Tokens, GetType, TypeName, MemberText, SameText, Strtol0, PrintInt;
    assert LegalType(reg, i);
    var m := reg[i].members[k];
    MemberTokens(reg, i, m);
    TypeFound(reg, i, m.typ);
    PrintParse(m.count);
  }

  /** The server rebuilds exactly the members it printed, from the types that existed before. */
  lemma ServerRoundTrip(reg: Registry, i: nat)
    requires Legal(reg) && i < |reg| && Typed(reg, reg[i].members)
    ensures var t := Tokens(Serialize(reg, reg[i]), ':');
      t != [] && t[0] == reg[i].name && ParseMembers(reg[..i], [], t[1..]) == Ok(reg[i].members)
  {
    hide Tokens, Legal, ParseMembers, Serialize;
    SerializedTokens(reg, i);
    MembersRebuilt(reg, i, 0);
    var t := Tokens(Serialize(reg, reg[i]), ':');
    assert t[1..] == MemberTexts(reg, reg[i].members) == MemberTexts(reg, reg[i].members)[0..];
    assert reg[i].members[..0] == [];
  }

  /** Asking for an existing type by its own description returns that type and changes nothing. */
  lemma Recreate(reg: Registry, i: nat)
    requires Legal(reg) && Printable(reg) && i < |reg|
    ensures var str := Serialize(reg, reg[i]);
      Tokens(str, ':') != [] && Create(reg, str) == (reg, Ok(Custom(i)))
  {
    hide Tokens, GetType, ValidName, Serialize, ParseMembers;
    SerializedTokens(reg, i);
    assert LegalType(reg, i);
    assert reg[..|reg|] == reg;
    TypeFound(reg, |reg|, Custom(i));
    ValidNameShort(reg[i].name);
  }

  lemma ValidNameShort(s: string)
    requires ValidName(s)
    ensures |s| <= DAX_TAGNAME_SIZE
  {}
}
