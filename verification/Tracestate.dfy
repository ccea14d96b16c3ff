/** The bounded simple-key subset of tracestate (section 3.3 of W3C Trace Context): the validator
    emitted for Python, which works on code points, and the one emitted for TypeScript, which
    works on UTF-16 code units. */
module Tracestate {

  /** Code points of a Python string, or code units of a JavaScript string. */
  type Text = seq<nat>

  const COMMA: nat := 0x2C
  const EQUALS: nat := 0x3D

  // -----------------------------------------------------------------------------------------
  // Splitting and joining

  function Split(s: Text, sep: nat): (parts: seq<Text>)
    ensures |parts| >= 1
    decreases |s|
  {
    if s == [] then [[]]
    else
      var rest := Split(s[1..], sep);
      if s[0] == sep then [[]] + rest else [[s[0]] + rest[0]] + rest[1..]
  }

  function Join(parts: seq<Text>, sep: nat): (s: Text)
    requires |parts| >= 1
    decreases |parts|
  {
    if |parts| == 1 then parts[0] else parts[0] + [sep] + Join(parts[1..], sep)
  }

  lemma {:induction false} JoinOfSplit(s: Text, sep: nat)
    ensures Join(Split(s, sep), sep) == s
    ensures forall i :: 0 <= i < |Split(s, sep)| ==> sep !in Split(s, sep)[i]
    decreases |s|
  {
    if s != [] {
      JoinOfSplit(s[1..], sep);
      var rest := Split(s[1..], sep);
      var parts := Split(s, sep);
      assert s == [s[0]] + s[1..];
      if s[0] == sep {
        assert parts[1..] == rest;
      } else {
        assert parts[1..] == rest[1..];
        if |rest| > 1 {
          assert Join(parts, sep) == [s[0]] + (rest[0] + [sep] + Join(rest[1..], sep));
        }
      }
    }
  }

  lemma {:induction false} SplitOfJoin(parts: seq<Text>, sep: nat)
    requires |parts| >= 1 && forall i :: 0 <= i < |parts| ==> sep !in parts[i]
    ensures Split(Join(parts, sep), sep) == parts
    decreases |parts|, |parts[0]|
  {
    var s := Join(parts, sep);
    if parts[0] != [] {
      var shorter := [parts[0][1..]] + parts[1..];
      SplitOfJoin(shorter, sep);
      assert shorter[1..] == parts[1..];
      assert s[1..] == Join(shorter, sep);
      assert s[0] == parts[0][0] && parts[0] == [s[0]] + parts[0][1..];
    } else if |parts| > 1 {
      SplitOfJoin(parts[1..], sep);
      assert s == [sep] + Join(parts[1..], sep);
    }
  }

  /** The first position of `c`, or the length when it is absent. */
  function IndexOf(s: Text, c: nat): (i: nat)
    ensures i <= |s|
    ensures i < |s| ==> s[i] == c
    ensures c !in s[..i]
  {
    if s == [] then 0
    else if s[0] == c then 0
    else
      var i := 1 + IndexOf(s[1..], c);
      assert s[..i] == [s[0]] + s[1..][..i - 1];
      i
  }

  // -----------------------------------------------------------------------------------------
  // Members

  predicate LowerOrDigit(c: nat) {
    0x61 <= c <= 0x7A || 0x30 <= c <= 0x39
  }

  /** [a-z0-9][a-z0-9_*\/-]{0,255} */
  predicate KeyPattern(key: Text) {
    && 1 <= |key| <= 256
    && LowerOrDigit(key[0])
    && forall i :: 1 <= i < |key| ==> LowerOrDigit(key[i]) || key[i] in {0x5F, 0x2A, 0x2F, 0x2D}
  }

  predicate ValueChar(c: nat) {
    0x21 <= c <= 0x7E && c != COMMA && c != EQUALS
  }

  predicate ValuePattern(value: Text) {
    1 <= |value| <= 256 && forall i :: 0 <= i < |value| ==> ValueChar(value[i])
  }

  function KeyOf(member: Text): (k: Text) {
    member[..IndexOf(member, EQUALS)]
  }

  function ValueOf(member: Text): (v: Text)
    requires EQUALS in member
  {
    member[Separator(member) + 1..]
  }

  function Separator(member: Text): (i: nat)
    requires EQUALS in member
    ensures i < |member|
  {
    var i := IndexOf(member, EQUALS);
    assert member[..|member|] == member;
    i
  }

  predicate MemberOk(member: Text) {
    EQUALS in member && KeyPattern(KeyOf(member)) && ValuePattern(ValueOf(member))
  }

  predicate MembersOk(members: seq<Text>, n: nat)
    requires n <= |members|
  {
    && (forall i :: 0 <= i < n ==> MemberOk(members[i]))
    && (forall i, j :: 0 <= i < j < n ==> KeyOf(members[i]) != KeyOf(members[j]))
  }

  /** The code points of ASCII text. */
  function CodesOf(text: string): (t: Text) {
    seq(|text|, i requires 0 <= i < |text| => text[i] as nat)
  }

  /** The alphabets, letter by letter: keys start with a lower-case letter or a digit and go on with
      those or one of four signs, and values are printable, without space, comma and equals sign. */
  lemma AlphabetsSpelled(key: Text, value: Text)
    ensures KeyPattern(key) <==>
              && 1 <= |key| <= 256 && key[0] in CodesOf("abcdefghijklmnopqrstuvwxyz0123456789")
              && forall i :: 0 <= i < |key| ==> key[i] in CodesOf("abcdefghijklmnopqrstuvwxyz0123456789_*/-")
    ensures ValuePattern(value) <==>
              && 1 <= |value| <= 256
              && forall i :: 0 <= i < |value| ==>
                   ' ' as nat < value[i] <= '~' as nat && value[i] != ',' as nat && value[i] != '=' as nat
  {
    forall c: nat ensures LowerOrDigit(c) <==> c in CodesOf("abcdefghijklmnopqrstuvwxyz0123456789")
      ensures LowerOrDigit(c) || c in {0x5F, 0x2A, 0x2F, 0x2D} <==> c in CodesOf("abcdefghijklmnopqrstuvwxyz0123456789_*/-")
    {
      LettersAndDigits(c);
    }
    hide LowerOrDigit, CodesOf;
  }

  lemma LettersAndDigits(c: nat)
    ensures LowerOrDigit(c) <==> c in CodesOf("abcdefghijklmnopqrstuvwxyz0123456789")
    ensures LowerOrDigit(c) || c in {0x5F, 0x2A, 0x2F, 0x2D} <==> c in CodesOf("abcdefghijklmnopqrstuvwxyz0123456789_*/-")
  {
    var letters := "abcdefghijklmnopqrstuvwxyz0123456789";
    var signs := "abcdefghijklmnopqrstuvwxyz0123456789_*/-";
    assert forall i | 0 <= i < 36 :: letters[i] == (if i < 26 then (0x61 + i) as char else (0x30 + i - 26) as char);
    assert forall i | 0 <= i < 36 :: signs[i] == letters[i];
    assert signs[36] as nat == 0x5F && signs[37] as nat == 0x2A && signs[38] as nat == 0x2F && signs[39] as nat == 0x2D;
    if 0x61 <= c <= 0x7A { assert CodesOf(letters)[c - 0x61] == c && CodesOf(signs)[c - 0x61] == c; }
    if 0x30 <= c <= 0x39 { assert CodesOf(letters)[c - 0x30 + 26] == c && CodesOf(signs)[c - 0x30 + 26] == c; }
    if c in {0x5F, 0x2A, 0x2F, 0x2D} {
      assert CodesOf(signs)[36] == 0x5F && CodesOf(signs)[37] == 0x2A && CodesOf(signs)[38] == 0x2F && CodesOf(signs)[39] == 0x2D;
    }
  }

  /** What either validator decides about the text it sees. */
  predicate Accepts(value: Text) {
    && 1 <= |value| <= 512
    && |Split(value, COMMA)| <= 32
    && MembersOk(Split(value, COMMA), |Split(value, COMMA)|)
  }

  // -----------------------------------------------------------------------------------------
  // The emitted validators

  method IsValidTracestatePython(value: Text) returns (ok: bool)
    ensures ok <==> Accepts(value)
  {
    hide Split, KeyPattern;
    if !(1 <= |value| <= 512) { return false; }
    var members := Split(value, COMMA);
    if !(1 <= |members| <= 32) { return false; }
    var keys: set<Text> := {};
    var i := 0;
    while i < |members|
      invariant 0 <= i <= |members| && MembersOk(members, i)
      invariant keys == set j | 0 <= j < i :: KeyOf(members[j])
    {
      var member := members[i];
      if EQUALS !in member { return false; }
      var key, memberValue := KeyOf(member), ValueOf(member);
      if !KeyPattern(key) || key in keys { return false; }
      if !(1 <= |memberValue| <= 256) { return false; }
      if exists k | 0 <= k < |memberValue| :: !(0x21 <= memberValue[k] <= 0x7E) || memberValue[k] in {COMMA, EQUALS} {
        return false;
      }
      keys := keys + {key};
      i := i + 1;
    }
    return true;
  }

  predicate HighSurrogate(u: nat) {
    0xD800 <= u <= 0xDBFF
  }

  predicate LowSurrogate(u: nat) {
    0xDC00 <= u <= 0xDFFF
  }

  /** `for (const char of ...)` steps over a surrogate pair at once and looks only at its first unit. */
  method ValueCharsTypeScript(memberValue: Text) returns (ok: bool)
    ensures ok <==> forall i :: 0 <= i < |memberValue| ==> ValueChar(memberValue[i])
  {
    var i := 0;
    while i < |memberValue|
      invariant 0 <= i <= |memberValue|
      invariant forall k :: 0 <= k < i ==> ValueChar(memberValue[k])
    {
      var pair := i + 1 < |memberValue| && HighSurrogate(memberValue[i]) && LowSurrogate(memberValue[i + 1]);
      var code := memberValue[i];
      if code < 0x21 || code > 0x7E || (!pair && code == COMMA) || (!pair && code == EQUALS) { return false; }
      i := i + if pair then 2 else 1;
    }
    return true;
  }

  method IsValidTracestateTypeScript(value: Text) returns (ok: bool)
    ensures ok <==> Accepts(value)
  {
    assert !KeyPattern([]);
    hide Split, KeyPattern, ValueChar;
    if |value| < 1 || |value| > 512 { return false; }
    var members := Split(value, COMMA);
    if |members| < 1 || |members| > 32 { return false; }
    var keys: set<Text> := {};
    var i := 0;
    while i < |members|
      invariant 0 <= i <= |members| && MembersOk(members, i)
      invariant keys == set j | 0 <= j < i :: KeyOf(members[j])
    {
      var member := members[i];
      var separator := if EQUALS in member then Separator(member) else -1;
      assert separator == 0 ==> KeyOf(member) == [];
      if separator < 1 { return false; }
      var key := member[..separator];
      var memberValue := member[separator + 1..];
      if !KeyPattern(key) || key in keys || |memberValue| < 1 || |memberValue| > 256 { return false; }
      var printable := ValueCharsTypeScript(memberValue);
      if !printable { return false; }
      keys := keys + {key};
      i := i + 1;
    }
    return true;
  }

  // -----------------------------------------------------------------------------------------
  // The two see different encodings of one string

  function Units(c: nat): (u: Text) {
    if c < 0x10000 then [c]
    else [0xD800 + (c - 0x10000) / 0x400, 0xDC00 + (c - 0x10000) % 0x400]
  }

  function Utf16(s: Text): (u: Text) {
    if s == [] then [] else Units(s[0]) + Utf16(s[1..])
  }

  /** The surrogate pairs are the forms of the code points beyond the first plane. */
  lemma {:induction false} SurrogatesExactly(high: nat, low: nat)
    ensures HighSurrogate(high) && LowSurrogate(low) <==> exists c :: 0x10000 <= c <= 0x10FFFF && Units(c) == [high, low]
  {
    if HighSurrogate(high) && LowSurrogate(low) {
      var c := 0x10000 + (high - 0xD800) * 0x400 + (low - 0xDC00);
      assert Units(c) == [high, low];
    }
  }

  /** Reading UTF-16 back: a high surrogate followed by a low one is one code point. */
  function Decoded(u: Text): (s: Text) {
    if u == [] then []
    else if |u| > 1 && 0xD800 <= u[0] <= 0xDBFF && 0xDC00 <= u[1] <= 0xDFFF then
      [0x10000 + (u[0] - 0xD800) * 0x400 + (u[1] - 0xDC00)] + Decoded(u[2..])
    else [u[0]] + Decoded(u[1..])
  }

  /** The UTF-16 form of a string of scalar values reads back as that string. */
  lemma {:induction false} Utf16RoundTrip(s: Text)
    requires forall i :: 0 <= i < |s| ==> s[i] < 0xD800 || 0xE000 <= s[i] <= 0x10FFFF
    ensures Decoded(Utf16(s)) == s
  {
    if s != [] {
      Utf16RoundTrip(s[1..]);
      var c, rest := s[0], Utf16(s[1..]);
      if c < 0x10000 {
        assert Utf16(s) == [c] + rest && Utf16(s)[1..] == rest;
      } else {
        var (high, low) := (0xD800 + (c - 0x10000) / 0x400, 0xDC00 + (c - 0x10000) % 0x400);
        assert Utf16(s) == [high, low] + rest && Utf16(s)[2..] == rest;
        assert 0x10000 + (high - 0xD800) * 0x400 + (low - 0xDC00) == c;
      }
      assert s == [s[0]] + s[1..];
    }
  }

  predicate Ascii(s: Text) {
    forall i :: 0 <= i < |s| ==> s[i] < 0x80
  }

  lemma {:induction false} Utf16OfAscii(s: Text)
    ensures Ascii(s) ==> Utf16(s) == s
    ensures Ascii(Utf16(s)) ==> Ascii(s)
  {
    if s != [] {
      Utf16OfAscii(s[1..]);
      var u := Utf16(s);
      assert s == [s[0]] + s[1..];
      if Ascii(u) {
        assert u[0] == Units(s[0])[0];
        forall i | 0 <= i < |Utf16(s[1..])| ensures Utf16(s[1..])[i] < 0x80 {
          assert u[|Units(s[0])| + i] == Utf16(s[1..])[i];
        }
      }
    }
  }

  lemma {:induction false} JoinIsAscii(parts: seq<Text>, sep: nat)
    requires |parts| >= 1 && sep < 0x80 && forall i :: 0 <= i < |parts| ==> Ascii(parts[i])
    ensures Ascii(Join(parts, sep))
    decreases |parts|
  {
    if |parts| > 1 {
      JoinIsAscii(parts[1..], sep);
    }
  }

  lemma AcceptedIsAscii(s: Text)
    requires Accepts(s)
    ensures Ascii(s)
  {
    var members := Split(s, COMMA);
    forall i | 0 <= i < |members| ensures Ascii(members[i]) {
      var m := members[i];
      assert m == KeyOf(m) + [EQUALS] + ValueOf(m);
    }
    JoinIsAscii(members, COMMA);
    JoinOfSplit(s, COMMA);
  }

  /** The validators agree on every string, astral characters and lone surrogates included. */
  lemma ValidatorsAgree(s: Text)
    ensures Accepts(s) <==> Accepts(Utf16(s))
  {
    Utf16OfAscii(s);
    if Accepts(s) {
      AcceptedIsAscii(s);
    }
    if Accepts(Utf16(s)) {
      AcceptedIsAscii(Utf16(s));
    }
  }

  // -----------------------------------------------------------------------------------------
  // What is accepted: renderings of member lists

  datatype Member = Member(key: Text, value: Text)

  function MemberText(m: Member): (s: Text) {
    m.key + [EQUALS] + m.value
  }

  function Rendered(ms: seq<Member>): (s: Text)
    requires |ms| >= 1
  {
    Join(seq(|ms|, i requires 0 <= i < |ms| => MemberText(ms[i])), COMMA)
  }

  ghost predicate WellFormed(ms: seq<Member>) {
    && 1 <= |ms| <= 32
    && (forall i :: 0 <= i < |ms| ==> KeyPattern(ms[i].key) && ValuePattern(ms[i].value))
    && (forall i, j :: 0 <= i < j < |ms| ==> ms[i].key != ms[j].key)
  }

  function ParsedMember(member: Text): (m: Member) {
    if EQUALS in member then Member(KeyOf(member), ValueOf(member)) else Member(member, [])
  }

  function Parsed(s: Text): (ms: seq<Member>) {
    var members := Split(s, COMMA);
    seq(|members|, i requires 0 <= i < |members| => ParsedMember(members[i]))
  }

  lemma MemberRoundTrip(m: Member)
    requires KeyPattern(m.key) && ValuePattern(m.value)
    ensures ParsedMember(MemberText(m)) == m && MemberOk(MemberText(m))
    ensures COMMA !in MemberText(m)
  {
    var s := MemberText(m);
    var i := IndexOf(s, EQUALS);
    assert s[|m.key|] == EQUALS;
    assert s[..|m.key|] == m.key && s[|m.key| + 1..] == m.value;
  }

  /** Parsing undoes rendering, so no two member lists have the same text. */
  lemma ParseOfRender(ms: seq<Member>)
    requires WellFormed(ms)
    ensures Parsed(Rendered(ms)) == ms
    ensures |Split(Rendered(ms), COMMA)| == |ms|
    ensures MembersOk(Split(Rendered(ms), COMMA), |ms|)
  {
    var texts := seq(|ms|, i requires 0 <= i < |ms| => MemberText(ms[i]));
    forall i | 0 <= i < |ms|
      ensures ParsedMember(texts[i]) == ms[i] && MemberOk(texts[i]) && COMMA !in texts[i]
    {
      MemberRoundTrip(ms[i]);
    }
    SplitOfJoin(texts, COMMA);
  }

  /** Rendering undoes parsing on every accepted string. */
  lemma RenderOfParse(s: Text)
    requires Accepts(s)
    ensures WellFormed(Parsed(s)) && Rendered(Parsed(s)) == s
  {
    var members := Split(s, COMMA);
    var ms := Parsed(s);
    var texts := seq(|ms|, i requires 0 <= i < |ms| => MemberText(ms[i]));
    forall i | 0 <= i < |members| ensures texts[i] == members[i] {
      assert members[i] == KeyOf(members[i]) + [EQUALS] + ValueOf(members[i]);
    }
    assert texts == members;
    JoinOfSplit(s, COMMA);
  }

  /** A string is accepted exactly when it renders one (and only one) list of 1 to 32 members
      with distinct, well-formed keys in at most 512 characters. */
  lemma AcceptedExactly(s: Text)
    ensures Accepts(s) <==> exists ms :: WellFormed(ms) && |Rendered(ms)| <= 512 && s == Rendered(ms)
    ensures forall ms, ns :: WellFormed(ms) && WellFormed(ns) && Rendered(ms) == Rendered(ns) ==> ms == ns
  {
    if Accepts(s) {
      RenderOfParse(s);
      assert WellFormed(Parsed(s));
    }
    if ms :| WellFormed(ms) && |Rendered(ms)| <= 512 && s == Rendered(ms) {
      ParseOfRender(ms);
    }
    forall ms, ns | WellFormed(ms) && WellFormed(ns) && Rendered(ms) == Rendered(ns)
      ensures ms == ns
    {
      ParseOfRender(ms);
      ParseOfRender(ns);
    }
  }

  // -----------------------------------------------------------------------------------------
  // The schema pattern that accompanies the Python validator

  /** Printable characters with inner spaces, not ending in a space. */
  predicate LooseValue(value: Text) {
    && 1 <= |value| <= 256
    && ValueChar(value[0]) && ValueChar(value[|value| - 1])
    && forall i :: 0 <= i < |value| ==> ValueChar(value[i]) || value[i] == 0x20
  }

  /** On the characters: printable ones, commas and equals signs excepted, with spaces inside only. */
  lemma LooseSpelled(value: Text)
    ensures LooseValue(value) <==>
              && 1 <= |value| <= 256 && value[0] != ' ' as nat && value[|value| - 1] != ' ' as nat
              && forall i :: 0 <= i < |value| ==> ' ' as nat <= value[i] <= '~' as nat && value[i] != ',' as nat && value[i] != '=' as nat
  {
  }

  predicate SchemaPattern(value: Text) {
    var members := Split(value, COMMA);
    && |members| <= 32
    && forall i :: 0 <= i < |members| ==>
         EQUALS in members[i] && KeyPattern(KeyOf(members[i])) && LooseValue(ValueOf(members[i]))
  }

  ghost predicate LooselyFormed(ms: seq<Member>) {
    1 <= |ms| <= 32 && forall i :: 0 <= i < |ms| ==> KeyPattern(ms[i].key) && LooseValue(ms[i].value)
  }

  /** The pattern admits what renders up to 32 well-formed keys, repeated or not, with values that
      may have inner spaces. */
  lemma {:induction false} SchemaPatternExactly(value: Text)
    ensures SchemaPattern(value) <==> exists ms :: LooselyFormed(ms) && value == Rendered(ms)
  {
    if SchemaPattern(value) {
      PatternParses(value);
    }
    if ms :| LooselyFormed(ms) && value == Rendered(ms) {
      RenderedMatches(ms);
    }
  }

  lemma {:induction false} PatternParses(value: Text)
    requires SchemaPattern(value)
    ensures LooselyFormed(Parsed(value)) && value == Rendered(Parsed(value))
  {
    hide KeyPattern, LooseValue, Split;
    var members := Split(value, COMMA);
    var ms := Parsed(value);
    var texts := seq(|ms|, i requires 0 <= i < |ms| => MemberText(ms[i]));
    forall i | 0 <= i < |members| ensures texts[i] == members[i] {
      assert members[i] == KeyOf(members[i]) + [EQUALS] + ValueOf(members[i]);
    }
    assert texts == members;
    JoinOfSplit(value, COMMA);
  }

  lemma {:induction false} RenderedMatches(ms: seq<Member>)
    requires LooselyFormed(ms)
    ensures SchemaPattern(Rendered(ms))
  {
    hide KeyPattern, LooseValue, Split, KeyOf, ValueOf, MemberText;
    var texts := seq(|ms|, i requires 0 <= i < |ms| => MemberText(ms[i]));
    forall i | 0 <= i < |ms|
      ensures EQUALS in texts[i] && KeyOf(texts[i]) == ms[i].key && ValueOf(texts[i]) == ms[i].value && COMMA !in texts[i]
    {
      LooseMember(ms[i]);
    }
    SplitOfJoin(texts, COMMA);
  }

  lemma LooseMember(m: Member)
    requires KeyPattern(m.key) && LooseValue(m.value)
    ensures EQUALS in MemberText(m) && KeyOf(MemberText(m)) == m.key && ValueOf(MemberText(m)) == m.value
    ensures COMMA !in MemberText(m)
  {
    var s := MemberText(m);
    var i := IndexOf(s, EQUALS);
    assert s[|m.key|] == EQUALS;
    assert s[..|m.key|] == m.key && s[|m.key| + 1..] == m.value;
  }

  /** The semantic validator is the stricter of the two, so the pattern refuses nothing more. */
  lemma PatternImplied(value: Text)
    requires Accepts(value)
    ensures SchemaPattern(value)
  {
  }
}
