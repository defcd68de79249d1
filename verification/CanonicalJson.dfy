/**
  The canonical JSON printer: members in key order, no white space. A reader for its output is
  defined alongside; that the reader inverts the printer is what makes the text unambiguous.
 */
module CanonicalJson {
  import opened Prelude
  import opened Ordering
  import opened Json

  // ---- Strings ----

  function HexDigit(n: nat): char
    requires n < 16
  {
    "0123456789abcdef"[n]
  }

  function HexValue(c: char): Option<nat> {
    if '0' <= c <= '9' then Some((c - '0') as nat)
    else if 'a' <= c <= 'f' then Some((c - 'a') as nat + 10)
    else None
  }

  function EscapeChar(c: char): (e: string)
    ensures e != [] && e[0] != '"'
  {
    if c == '"' then "\\\""
    else if c == '\\' then "\\\\"
    else if c == 8 as char then "\\b"
    else if c == 12 as char then "\\f"
    else if c == '\n' then "\\n"
    else if c == '\r' then "\\r"
    else if c == '\t' then "\\t"
    else if c < ' ' then "\\u00" + [HexDigit(c as nat / 16), HexDigit(c as nat % 16)]
    else [c]
  }

  function Escape(s: string): string {
    if s == [] then [] else EscapeChar(s[0]) + Escape(s[1..])
  }

  function Quote(s: string): string {
    "\"" + Escape(s) + "\""
  }

  /** Read one character of a quoted string, escaped or not. */
  function ReadChar(s: string): (r: Option<(char, string)>)
    ensures r.Some? ==> |r.value.1| < |s|
  {
    if s == [] || s[0] < ' ' then None
    else if s[0] != '\\' then Some((s[0], s[1..]))
    else if |s| < 2 then None
    else if s[1] in {'"', '\\'} then Some((s[1], s[2..]))
    else if s[1] == 'b' then Some((8 as char, s[2..]))
    else if s[1] == 'f' then Some((12 as char, s[2..]))
    else if s[1] == 'n' then Some(('\n', s[2..]))
    else if s[1] == 'r' then Some(('\r', s[2..]))
    else if s[1] == 't' then Some(('\t', s[2..]))
    else if |s| >= 6 && s[1..4] == "u00" && HexValue(s[4]).Some? && HexValue(s[5]).Some? then
      Some(((HexValue(s[4]).value * 16 + HexValue(s[5]).value) as char, s[6..]))
    else None
  }

  /** Read a quoted string whose opening quote is already consumed. */
  function ReadString(s: string): (r: Option<(string, string)>)
    ensures r.Some? ==> |r.value.1| < |s|
  {
    if s == [] then None
    else if s[0] == '"' then Some(([], s[1..]))
    else
      match ReadChar(s)
      case None => None
      case Some((c, rest)) =>
        match ReadString(rest)
        case None => None
        case Some((text, after)) => Some(([c] + text, after))
  }

  lemma ReadEscapedChar(c: char, rest: string)
    ensures ReadChar(EscapeChar(c) + rest) == Some((c, rest))
  {
    if c < ' ' && c !in {8 as char, 12 as char, '\n', '\r', '\t'} {
      ReadHexChar(c, rest);
    } else {
      assert (EscapeChar(c) + rest)[|EscapeChar(c)|..] == rest;
    }
  }

  lemma HexRoundTrip(n: nat)
    requires n < 16
    ensures HexValue(HexDigit(n)) == Some(n)
  {
  }

  lemma ReadHexChar(c: char, rest: string)
    requires c < ' '
    ensures var hi, lo := c as nat / 16, c as nat % 16;
            ReadChar("\\u00" + [HexDigit(hi), HexDigit(lo)] + rest) == Some((c, rest))
  {
    var hi, lo := c as nat / 16, c as nat % 16;
    var s := "\\u00" + [HexDigit(hi), HexDigit(lo)] + rest;
    HexRoundTrip(hi);
    HexRoundTrip(lo);
    assert s[1..4] == "u00" && s[4] == HexDigit(hi) && s[5] == HexDigit(lo) && s[6..] == rest;
    assert (hi * 16 + lo) as char == c;
  }

  /** No text that reads as a character is shorter than its escape, and escapes are in lower case. */
  lemma ShortestEscape(c: char, e: string)
    requires ReadChar(e) == Some((c, [])) && e[0] != '"'
    ensures |EscapeChar(c)| <= |e|
    ensures EscapeChar(c)[0] == '\\' ==> c == '"' || c == '\\' || c < ' '
    ensures |EscapeChar(c)| == 6 ==> forall i :: 0 <= i < 6 ==> !('A' <= EscapeChar(c)[i] <= 'Z')
  {
    if |EscapeChar(c)| == 6 {
      HexRoundTrip(c as nat / 16);
      HexRoundTrip(c as nat % 16);
    }
  }

  lemma {:induction false} ReadEscaped(t: string, rest: string)
    ensures ReadString(Escape(t) + "\"" + rest) == Some((t, rest))
  {
    if t == [] {
      assert (Escape(t) + "\"" + rest)[1..] == rest;
    } else {
      var tail := Escape(t[1..]) + "\"" + rest;
      assert Escape(t) + "\"" + rest == EscapeChar(t[0]) + tail;
      ReadEscapedChar(t[0], tail);
      ReadEscaped(t[1..], rest);
      assert [t[0]] + t[1..] == t;
    }
  }

  // ---- Numbers ----

  function Digit(n: nat): char
    requires n < 10
  {
    "0123456789"[n]
  }

  function Digits(n: nat): (t: string)
    ensures AllDigits(t) && t != []
  {
    if n < 10 then [Digit(n)] else Digits(n / 10) + [Digit(n % 10)]
  }

  function PrintNumber(n: Number): string {
    match n
    case Int(i) => if i < 0 then "-" + Digits(-i) else Digits(i)
    case Float(t) => t
  }

  predicate AllDigits(t: string) {
    forall i :: 0 <= i < |t| ==> '0' <= t[i] <= '9'
  }

  function ReadDigits(t: string): (n: nat)
    requires AllDigits(t)
  {
    if t == [] then 0 else ReadDigits(t[..|t| - 1]) * 10 + (t[|t| - 1] - '0') as nat
  }

  lemma {:induction false} ReadPrintedDigits(n: nat)
    ensures ReadDigits(Digits(n)) == n
  {
    if n < 10 {
      assert ReadDigits([]) == 0;
    } else {
      var t := Digits(n);
      assert t[..|t| - 1] == Digits(n / 10);
      ReadPrintedDigits(n / 10);
    }
  }

  /** The text up to the first character that cannot be part of a number. */
  function NumberPrefix(s: string): (t: string)
    ensures t <= s && forall c :: c in t ==> NumberChar(c)
  {
    if s == [] || !NumberChar(s[0]) then []
    else
      assert s == [s[0]] + s[1..];
      [s[0]] + NumberPrefix(s[1..])
  }

  function ReadNumber(t: string): Option<Number> {
    if t == [] then None
    else if exists c :: c in t && FloatMark(c) then Some(Float(t))
    else if AllDigits(t) then Some(Int(ReadDigits(t)))
    else if t[0] == '-' && |t| > 1 && AllDigits(t[1..]) then Some(Int(0 - ReadDigits(t[1..])))
    else None
  }

  /** What may follow a value: the end of the text or punctuation. */
  predicate Ends(rest: string) {
    rest == [] || rest[0] in {',', ']', '}'}
  }

  lemma {:induction false} PrefixOfNumber(t: string, rest: string)
    requires (forall c :: c in t ==> NumberChar(c)) && Ends(rest)
    ensures NumberPrefix(t + rest) == t
  {
    if t == [] {
      assert t + rest == rest;
    } else {
      assert (t + rest)[1..] == t[1..] + rest;
      PrefixOfNumber(t[1..], rest);
    }
  }

  ghost predicate NumberText(t: string) {
    t != [] && ('0' <= t[0] <= '9' || t[0] == '-') && forall c :: c in t ==> NumberChar(c)
  }

  lemma ReadDigitText(d: string)
    requires AllDigits(d) && d != []
    ensures NumberText(d) && ReadNumber(d) == Some(Int(ReadDigits(d)))
  {
    forall c | c in d ensures '0' <= c <= '9' {
      var i :| 0 <= i < |d| && d[i] == c;
    }
  }

  lemma ReadSignedText(d: string)
    requires AllDigits(d) && d != []
    ensures var t := "-" + d; NumberText(t) && ReadNumber(t) == Some(Int(0 - ReadDigits(d)))
  {
    var t := "-" + d;
    assert t[0] == '-' && t[1..] == d;
    ReadDigitText(d);
    forall c | c in t ensures NumberChar(c) && !FloatMark(c) {
      var i :| 0 <= i < |t| && t[i] == c;
      assert i > 0 ==> c == d[i - 1];
    }
  }

  lemma ReadPrintedInt(i: int)
    ensures var t := PrintNumber(Int(i)); NumberText(t) && ReadNumber(t) == Some(Int(i))
  {
    var n := if i < 0 then -i else i;
    var d := Digits(n);
    ReadPrintedDigits(n);
    if i < 0 { ReadSignedText(d); } else { ReadDigitText(d); }
  }

  lemma ReadPrintedNumber(n: Number)
    requires ValidNumber(n)
    ensures var t := PrintNumber(n); NumberText(t) && ReadNumber(t) == Some(n)
  {
    if n.Int? { ReadPrintedInt(n.value); }
  }

  // ---- The printer ----

  function Literal(v: Json): string
    requires !v.Arr? && !v.Obj?
  {
    match v
    case Null => "null"
    case Bool(b) => if b then "true" else "false"
    case Num(n) => PrintNumber(n)
    case Str(t) => Quote(t)
  }

  /** Every listed value is a proper part of `of`; this is why printing ends. */
  ghost predicate AllWithin(ms: seq<Member>, of: Json) {
    forall i :: 0 <= i < |ms| ==> ms[i].value < of
  }

  /** The printer as the service has it: it sorts the members of every object it meets. */
  function Print(v: Json): string
    decreases v, 1, 0
  {
    match v
    case Arr(items) => "[" + PrintItems(items) + "]"
    case Obj(ms) =>
      SortedMembersSmaller(v);
      "{" + PrintMembers(v, SortBy(ms, KeyOf)) + "}"
    case _ => Literal(v)
  }

  function PrintItems(items: seq<Json>): string
    decreases items, 0, 0
  {
    if items == [] then ""
    else if |items| == 1 then Print(items[0])
    else Print(items[0]) + "," + PrintItems(items[1..])
  }

  function PrintMembers(of: Json, ms: seq<Member>): string
    requires AllWithin(ms, of)
    decreases of, 0, |ms|
  {
    if ms == [] then ""
    else
      var m := Quote(ms[0].key) + ":" + Print(ms[0].value);
      if |ms| == 1 then m else m + "," + PrintMembers(of, ms[1..])
  }

  lemma SortedMembersSmaller(v: Json)
    requires v.Obj?
    ensures AllWithin(SortBy(v.members, KeyOf), v)
  {
    var s := SortBy(v.members, KeyOf);
    SameElements(s, v.members);
    forall i | 0 <= i < |s| ensures s[i].value < v {
      assert s[i] in v.members;
    }
  }

  /** The same text without sorting, for values whose members are in order already. */
  function Emit(v: Json): (t: string)
    decreases v, 1
  {
    match v
    case Arr(items) => "[" + EmitItems(items) + "]"
    case Obj(ms) => "{" + EmitMembers(ms) + "}"
    case _ => Literal(v)
  }

  function EmitItems(items: seq<Json>): string
    decreases items, 0
  {
    if items == [] then ""
    else if |items| == 1 then Emit(items[0])
    else Emit(items[0]) + "," + EmitItems(items[1..])
  }

  function EmitMembers(ms: seq<Member>): string
    decreases ms, 0
  {
    if ms == [] then ""
    else if |ms| == 1 then EmitMember(ms[0])
    else EmitMember(ms[0]) + "," + EmitMembers(ms[1..])
  }

  function EmitMember(m: Member): (t: string)
    ensures t != [] && t[0] == '"'
    decreases m, 0
  {
    Quote(m.key) + ":" + Emit(m.value)
  }

  lemma {:induction false} InsertCommutesWithCanon(x: Member, ms: seq<Member>)
    ensures Insert(Member(x.key, Canon(x.value)), CanonMembers(ms), KeyOf) == CanonMembers(Insert(x, ms, KeyOf))
  {
    if ms != [] && Less(ms[0].key, x.key) {
      InsertCommutesWithCanon(x, ms[1..]);
      assert CanonMembers(ms)[1..] == CanonMembers(ms[1..]);
      assert ([ms[0]] + Insert(x, ms[1..], KeyOf))[1..] == Insert(x, ms[1..], KeyOf);
    } else {
      assert ([x] + ms)[1..] == ms;
    }
  }

  lemma {:induction false} SortCommutesWithCanon(ms: seq<Member>)
    ensures SortBy(CanonMembers(ms), KeyOf) == CanonMembers(SortBy(ms, KeyOf))
  {
    if ms != [] {
      assert CanonMembers(ms)[1..] == CanonMembers(ms[1..]);
      SortCommutesWithCanon(ms[1..]);
      InsertCommutesWithCanon(ms[0], SortBy(ms[1..], KeyOf));
    }
  }

  /** Sorting on the way down prints the sorted representative. */
  lemma {:induction false} PrintEmitsCanon(v: Json)
    ensures Print(v) == Emit(Canon(v))
    decreases v, 1, 0
  {
    match v
    case Arr(items) => PrintItemsEmitsCanon(items);
    case Obj(ms) =>
      SortedMembersSmaller(v);
      PrintMembersEmitsCanon(v, SortBy(ms, KeyOf));
      SortCommutesWithCanon(ms);
    case _ =>
  }

  lemma {:induction false} PrintItemsEmitsCanon(items: seq<Json>)
    ensures PrintItems(items) == EmitItems(CanonItems(items))
    decreases items, 0, 0
  {
    if items != [] {
      PrintEmitsCanon(items[0]);
      PrintItemsEmitsCanon(items[1..]);
      assert CanonItems(items)[1..] == CanonItems(items[1..]);
    }
  }

  lemma {:induction false} PrintMembersEmitsCanon(of: Json, ms: seq<Member>)
    requires AllWithin(ms, of)
    ensures PrintMembers(of, ms) == EmitMembers(CanonMembers(ms))
    decreases of, 0, |ms|
  {
    if ms != [] {
      PrintEmitsCanon(ms[0].value);
      PrintMembersEmitsCanon(of, ms[1..]);
      assert CanonMembers(ms)[1..] == CanonMembers(ms[1..]);
    }
  }

  // ---- The reader ----

  function ReadValue(s: string): (r: Option<(Json, string)>)
    ensures r.Some? ==> |r.value.1| < |s|
    decreases |s|, 0
  {
    if s == [] then None
    else if s[0] == '{' then
      if |s| > 1 && s[1] == '}' then Some((Obj([]), s[2..]))
      else
        match ReadMembers(s[1..])
        case None => None
        case Some((ms, rest)) => Some((Obj(ms), rest))
    else if s[0] == '[' then
      if |s| > 1 && s[1] == ']' then Some((Arr([]), s[2..]))
      else
        match ReadItems(s[1..])
        case None => None
        case Some((items, rest)) => Some((Arr(items), rest))
    else if s[0] == '"' then
      match ReadString(s[1..])
      case None => None
      case Some((t, rest)) => Some((Str(t), rest))
    else if "null" <= s then Some((Null, s[4..]))
    else if "true" <= s then Some((Bool(true), s[4..]))
    else if "false" <= s then Some((Bool(false), s[5..]))
    else ReadNumeral(s)
  }

  function ReadNumeral(s: string): (r: Option<(Json, string)>)
    ensures r.Some? ==> |r.value.1| < |s|
  {
    var t := NumberPrefix(s);
    match ReadNumber(t)
    case None => None
    case Some(n) => Some((Num(n), s[|t|..]))
  }

  /** Values separated by commas, up to and with the closing bracket. */
  function ReadItems(s: string): (r: Option<(seq<Json>, string)>)
    ensures r.Some? ==> |r.value.1| < |s|
    decreases |s|, 1
  {
    match ReadValue(s)
    case None => None
    case Some((v, rest)) =>
      if rest == [] then None
      else if rest[0] == ']' then Some(([v], rest[1..]))
      else if rest[0] != ',' then None
      else
        match ReadItems(rest[1..])
        case None => None
        case Some((items, after)) => Some(([v] + items, after))
  }

  function ReadMember(s: string): (r: Option<(Member, string)>)
    ensures r.Some? ==> |r.value.1| < |s|
    decreases |s|, 1
  {
    if s == [] || s[0] != '"' then None
    else
      match ReadString(s[1..])
      case None => None
      case Some((k, rest)) =>
        if rest == [] || rest[0] != ':' then None
        else
          match ReadValue(rest[1..])
          case None => None
          case Some((v, after)) => Some((Member(k, v), after))
  }

  function ReadMembers(s: string): (r: Option<(seq<Member>, string)>)
    ensures r.Some? ==> |r.value.1| < |s|
    decreases |s|, 2
  {
    match ReadMember(s)
    case None => None
    case Some((m, rest)) =>
      if rest == [] then None
      else if rest[0] == '}' then Some(([m], rest[1..]))
      else if rest[0] != ',' then None
      else
        match ReadMembers(rest[1..])
        case None => None
        case Some((ms, after)) => Some(([m] + ms, after))
  }

  /** A document is one value and nothing after it. */
  function Read(s: string): Option<Json> {
    match ReadValue(s)
    case Some((v, rest)) => if rest == [] then Some(v) else None
    case None => None
  }

  ghost predicate Printable(v: Json) {
    match v
    case Num(n) => ValidNumber(n)
    case Arr(items) => forall i :: 0 <= i < |items| ==> Printable(items[i])
    case Obj(ms) => forall i :: 0 <= i < |ms| ==> Printable(ms[i].value)
    case _ => true
  }

  lemma {:induction false} ValidPrintable(v: Json)
    requires Valid(v)
    ensures Printable(v)
  {
    match v
    case Arr(items) =>
      forall i | 0 <= i < |items| ensures Printable(items[i]) { ValidPrintable(items[i]); }
    case Obj(ms) =>
      forall i | 0 <= i < |ms| ensures Printable(ms[i].value) { ValidPrintable(ms[i].value); }
    case _ =>
  }

  lemma EmitStart(v: Json)
    requires Printable(v)
    ensures Emit(v) != [] && Emit(v)[0] !in {']', '}', ','}
  {
    if v.Num? { ReadPrintedNumber(v.number); }
  }

  lemma ReadPlain(rest: string)
    ensures ReadValue("null" + rest) == Some((Null, rest))
    ensures ReadValue("true" + rest) == Some((Bool(true), rest))
    ensures ReadValue("false" + rest) == Some((Bool(false), rest))
  {
    var n, t, f := "null" + rest, "true" + rest, "false" + rest;
    assert "null" <= n && n[4..] == rest;
    assert "true" <= t && t[4..] == rest;
    assert "false" <= f && f[5..] == rest;
  }

  lemma ReadText(t: string, rest: string)
    ensures ReadValue(Quote(t) + rest) == Some((Str(t), rest))
  {
    var s := Quote(t) + rest;
    assert s[1..] == Escape(t) + "\"" + rest;
    ReadEscaped(t, rest);
  }

  lemma ReadNum(n: Number, rest: string)
    requires ValidNumber(n) && Ends(rest)
    ensures ReadValue(PrintNumber(n) + rest) == Some((Num(n), rest))
  {
    ReadPrintedNumber(n);
    ReadNumberText(PrintNumber(n), rest, n);
  }

  lemma ReadNumberText(t: string, rest: string, n: Number)
    requires NumberText(t) && ReadNumber(t) == Some(n) && Ends(rest)
    ensures ReadValue(t + rest) == Some((Num(n), rest))
  {
    var s := t + rest;
    PrefixOfNumber(t, rest);
    assert s[|t|..] == rest;
    assert s[0] == t[0];
    ReadFromDigit(s);
  }

  /** No literal starts like a number. */
  lemma NotALiteral(s: string)
    requires s != [] && ('0' <= s[0] <= '9' || s[0] == '-')
    ensures !("null" <= s) && !("true" <= s) && !("false" <= s)
  {
    assert "null"[0] == 'n' && "true"[0] == 't' && "false"[0] == 'f';
  }

  /** Text that starts as a number is read as one. */
  lemma ReadFromDigit(s: string)
    requires s != [] && ('0' <= s[0] <= '9' || s[0] == '-')
    ensures ReadValue(s) == ReadNumeral(s)
  {
    NotALiteral(s);
  }

  lemma ReadLiteral(v: Json, rest: string)
    requires Printable(v) && !v.Arr? && !v.Obj? && Ends(rest)
    ensures ReadValue(Literal(v) + rest) == Some((v, rest))
  {
    match v
    case Null => ReadPlain(rest);
    case Bool(_) => ReadPlain(rest);
    case Str(t) => ReadText(t, rest);
    case Num(n) => ReadNum(n, rest);
  }

  lemma ReadBrackets(body: string, items: seq<Json>, rest: string)
    requires body != [] && body[0] != ']'
    requires ReadItems(body + "]" + rest) == Some((items, rest))
    ensures ReadValue("[" + body + "]" + rest) == Some((Arr(items), rest))
  {
    var s := "[" + body + "]" + rest;
    assert s[1..] == body + "]" + rest;
  }

  lemma ReadBraces(body: string, ms: seq<Member>, rest: string)
    requires body != [] && body[0] != '}'
    requires ReadMembers(body + "}" + rest) == Some((ms, rest))
    ensures ReadValue("{" + body + "}" + rest) == Some((Obj(ms), rest))
  {
    var s := "{" + body + "}" + rest;
    assert s[1..] == body + "}" + rest;
  }

  lemma ReadEmpty(rest: string)
    ensures ReadValue("[]" + rest) == Some((Arr([]), rest))
    ensures ReadValue("{}" + rest) == Some((Obj([]), rest))
  {
    assert ("[]" + rest)[2..] == rest;
    assert ("{}" + rest)[2..] == rest;
  }

  /** The reader inverts the printer, whatever follows the value. */
  lemma {:induction false} ReadOfEmit(v: Json, rest: string)
    requires Printable(v) && Ends(rest)
    ensures ReadValue(Emit(v) + rest) == Some((v, rest))
    decreases v, 1
  {
    match v
    case Arr(items) =>
      if items == [] {
        assert Emit(v) == "[]";
        ReadEmpty(rest);
      } else {
        EmitStart(items[0]);
        assert EmitItems(items)[0] == Emit(items[0])[0];
        ReadOfItems(items, rest);
        ReadBrackets(EmitItems(items), items, rest);
      }
    case Obj(ms) =>
      if ms == [] {
        assert Emit(v) == "{}";
        ReadEmpty(rest);
      } else {
        ReadOfMembers(ms, rest);
        ReadBraces(EmitMembers(ms), ms, rest);
      }
    case _ => ReadLiteral(v, rest);
  }

  lemma {:induction false} ReadOfItems(items: seq<Json>, rest: string)
    requires items != [] && forall i :: 0 <= i < |items| ==> Printable(items[i])
    ensures ReadItems(EmitItems(items) + "]" + rest) == Some((items, rest))
    decreases items, 0
  {
    var first := Emit(items[0]);
    if |items| == 1 {
      assert EmitItems(items) + "]" + rest == first + ("]" + rest);
      ReadOfEmit(items[0], "]" + rest);
      assert ("]" + rest)[1..] == rest;
      assert [items[0]] == items;
    } else {
      var tail := EmitItems(items[1..]) + "]" + rest;
      assert EmitItems(items) + "]" + rest == first + ("," + tail);
      ReadOfEmit(items[0], "," + tail);
      assert ("," + tail)[1..] == tail;
      ReadOfItems(items[1..], rest);
      assert [items[0]] + items[1..] == items;
    }
  }

  lemma ReadMemberText(key: string, text: string, v: Json, rest: string)
    requires ReadValue(text) == Some((v, rest))
    ensures ReadMember(Quote(key) + ":" + text) == Some((Member(key, v), rest))
  {
    var s := Quote(key) + ":" + text;
    var after := ":" + text;
    assert s[1..] == Escape(key) + "\"" + after;
    ReadEscaped(key, after);
    assert after[1..] == text;
  }

  lemma {:induction false} ReadOfMember(m: Member, rest: string)
    requires Printable(m.value) && Ends(rest)
    ensures ReadMember(EmitMember(m) + rest) == Some((m, rest))
    decreases m, 0
  {
    ReadOfEmit(m.value, rest);
    ReadMemberText(m.key, Emit(m.value) + rest, m.value, rest);
    assert EmitMember(m) + rest == Quote(m.key) + ":" + (Emit(m.value) + rest);
  }

  lemma MembersCons(s: string, ms: seq<Member>, tail: string, rest: string)
    requires |ms| > 1 && ReadMember(s) == Some((ms[0], "," + tail))
    requires ReadMembers(tail) == Some((ms[1..], rest))
    ensures ReadMembers(s) == Some((ms, rest))
  {
    assert ("," + tail)[1..] == tail;
    assert [ms[0]] + ms[1..] == ms;
  }

  lemma {:induction false} ReadOfMembers(ms: seq<Member>, rest: string)
    requires ms != [] && forall i :: 0 <= i < |ms| ==> Printable(ms[i].value)
    ensures ReadMembers(EmitMembers(ms) + "}" + rest) == Some((ms, rest))
    decreases ms, 0
  {
    var m := EmitMember(ms[0]);
    if |ms| == 1 {
      assert EmitMembers(ms) + "}" + rest == m + ("}" + rest);
      ReadOfMember(ms[0], "}" + rest);
      assert ("}" + rest)[1..] == rest;
      assert [ms[0]] == ms;
    } else {
      var tail := EmitMembers(ms[1..]) + "}" + rest;
      assert EmitMembers(ms) + "}" + rest == m + ("," + tail);
      ReadOfMember(ms[0], "," + tail);
      ReadOfMembers(ms[1..], rest);
      MembersCons(m + ("," + tail), ms, tail, rest);
    }
  }

  /** Reading canonical text back gives the value with its members in order. */
  lemma ReadOfPrint(v: Json)
    requires Valid(v)
    ensures Read(Print(v)) == Some(Canon(v))
  {
    PrintEmitsCanon(v);
    CanonIdempotent(v);
    ValidPrintable(Canon(v));
    ReadOfEmit(Canon(v), []);
    assert Emit(Canon(v)) + [] == Emit(Canon(v));
  }

  /** Two values print to the same text exactly when they are equal up to the order of members. */
  lemma PrintUnambiguous(v: Json, w: Json)
    requires Valid(v) && Valid(w)
    ensures Print(v) == Print(w) <==> Same(v, w)
  {
    ReadOfPrint(v);
    ReadOfPrint(w);
    PrintEmitsCanon(v);
    PrintEmitsCanon(w);
    SameIffCanonEqual(v, w);
  }

  // ---- The order of members ----

  /** In every object, at every depth, the member names strictly increase. */
  ghost predicate KeysIncrease(v: Json) {
    match v
    case Arr(items) => forall i :: 0 <= i < |items| ==> KeysIncrease(items[i])
    case Obj(ms) =>
      && (forall i, j :: 0 <= i < j < |ms| ==> Precedes(ms[i].key, ms[j].key))
      && forall i :: 0 <= i < |ms| ==> KeysIncrease(ms[i].value)
    case _ => true
  }

  lemma SortedKeysIncrease(ms: seq<Member>)
    requires SortedBy(ms, KeyOf) && DistinctBy(ms, KeyOf)
    ensures forall i, j :: 0 <= i < j < |ms| ==> Precedes(ms[i].key, ms[j].key)
  {
    forall i, j | 0 <= i < j < |ms| ensures Precedes(ms[i].key, ms[j].key) {
      assert !Less(KeyOf(ms[j]), KeyOf(ms[i])) && KeyOf(ms[i]) != KeyOf(ms[j]);
      LessTrichotomy(ms[i].key, ms[j].key);
      LessMeans(ms[i].key, ms[j].key);
    }
  }

  lemma {:induction false} CanonKeysIncrease(v: Json)
    requires Valid(v)
    ensures KeysIncrease(Canon(v))
    decreases v
  {
    match v
    case Arr(items) =>
      forall i | 0 <= i < |items| ensures KeysIncrease(Canon(items[i])) { CanonKeysIncrease(items[i]); }
    case Obj(ms) =>
      var cs := CanonMembers(ms);
      var sorted := SortBy(cs, KeyOf);
      forall i | 0 <= i < |ms| ensures KeysIncrease(cs[i].value) { CanonKeysIncrease(ms[i].value); }
      SortBySorts(cs, KeyOf);
      DistinctPermutation(cs, sorted, KeyOf);
      SortedKeysIncrease(sorted);
      SameElements(cs, sorted);
      forall i | 0 <= i < |sorted| ensures KeysIncrease(sorted[i].value) { assert sorted[i] in cs; }
    case _ =>
  }

  /** The printed text names the members of every object in increasing text order. */
  lemma PrintOrdersKeys(v: Json)
    requires Valid(v)
    ensures Read(Print(v)).Some? && KeysIncrease(Read(Print(v)).value)
  {
    ReadOfPrint(v);
    CanonKeysIncrease(v);
  }
}
