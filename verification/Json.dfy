/** The strict JSON subset of app/bridge_json.h: the scanner as functions on the text that is left, and the grammar
    that they accept, no more and no less. */
module Json {
  import opened Basics

  /** A decoded string, or the raw text of any other scalar. */
  datatype Value = Value(isString: bool, text: string)

  type Object = map<string, Value>

  predicate IsWs(c: char) {
    c == ' ' || c == '\t' || c == '\n' || c == '\r'
  }

  /** The character an escape letter stands for (section 7 of RFC 8259 without \u). */
  function Unescape(c: char): Option<char> {
    match c
    case '"' => Some('"')
    case '\\' => Some('\\')
    case '/' => Some('/')
    case 'b' => Some(8 as char)
    case 'f' => Some(12 as char)
    case 'n' => Some('\n')
    case 'r' => Some('\r')
    case 't' => Some('\t')
    case _ => None
  }

  /** The white space of section 2 of RFC 8259, and the letters of its section 7 with the code points they stand for;
      no other letter stands for anything. */
  lemma Characters(c: char)
    ensures IsWs(c) <==> c as int in {0x20, 0x09, 0x0A, 0x0D}
    ensures Unescape(c).Some? <==> c in "\"\\/bfnrt"
    ensures c in "\"\\/" ==> Unescape(c) == Some(c)
    ensures c == 'b' ==> Unescape(c).value as int == 0x08
    ensures c == 'f' ==> Unescape(c).value as int == 0x0C
    ensures c == 'n' ==> Unescape(c).value as int == 0x0A
    ensures c == 'r' ==> Unescape(c).value as int == 0x0D
    ensures c == 't' ==> Unescape(c).value as int == 0x09
  {
  }

  /** What ends a bare scalar. */
  lemma Delimiters(c: char)
    ensures EndsToken(c) <==> c == ',' || c == '}' || c as int in {0x20, 0x09, 0x0A, 0x0D}
  {
  }

  // ---------------------------------------------------------------- scanning

  function SkipWs(t: string): (r: string)
    ensures |r| <= |t|
    ensures r != "" ==> !IsWs(r[0])
  {
    if t != "" && IsWs(t[0]) then SkipWs(t[1..]) else t
  }

  /** The value of a string literal whose opening quote is already consumed, and the text after it. */
  function ScanString(t: string): (r: Option<(string, string)>)
    ensures r.Some? ==> |r.value.1| < |t|
  {
    if t == "" then None
    else if t[0] == '"' then Some(("", t[1..]))
    else if t[0] < ' ' then None
    else if t[0] != '\\' then Cons(t[0], ScanString(t[1..]))
    else if |t| < 2 || Unescape(t[1]).None? then None
    else Cons(Unescape(t[1]).value, ScanString(t[2..]))
  }

  function Cons(c: char, r: Option<(string, string)>): Option<(string, string)> {
    if r.None? then None else Some(([c] + r.value.0, r.value.1))
  }

  predicate EndsToken(c: char) {
    c == ',' || c == '}' || IsWs(c)
  }

  /** The longest text without a delimiter, and what follows it. */
  function ScanToken(t: string): (r: (string, string))
    ensures t == r.0 + r.1
  {
    if t == "" || EndsToken(t[0]) then ("", t) else
      var (token, rest) := ScanToken(t[1..]);
      ([t[0]] + token, rest)
  }

  function ScanValue(t: string): (r: Option<(Value, string)>)
    ensures r.Some? ==> |r.value.1| < |t|
  {
    if t == "" then None
    else if t[0] == '"' then
      var r := ScanString(t[1..]);
      if r.None? then None else Some((Value(true, r.value.0), r.value.1))
    else
      var (token, rest) := ScanToken(t);
      if token == "" || token[0] == '{' || token[0] == '[' then None else Some((Value(false, token), rest))
  }

  /** What is not a scalar: nested values, and strings with a control character or an unknown escape. */
  lemma NotScalars(t: string)
    ensures t != "" && t[0] in "{[,} \t\n\r" ==> ScanValue(t).None?
    ensures t != "" && t[0] as int < 0x20 ==> ScanString(t).None?
    ensures |t| > 1 && t[0] == '\\' && t[1] !in "\"\\/bfnrt" ==> ScanString(t).None?
    ensures ScanString("").None? && ScanValue("").None?
  {
    if |t| > 1 {
      Characters(t[1]);
    }
  }

  /** A key, a colon and a value, with the white space before and between them. */
  function ScanMember(t: string): (r: Option<(string, Value, string)>)
    ensures r.Some? ==> |r.value.2| < |t|
  {
    var t1 := SkipWs(t);
    if t1 == "" || t1[0] != '"' then None else
      var key := ScanString(t1[1..]);
      if key.None? then None else
        var t2 := SkipWs(key.value.1);
        if t2 == "" || t2[0] != ':' then None else
          var v := ScanValue(SkipWs(t2[1..]));
          if v.None? then None else Some((key.value.0, v.value.0, v.value.1))
  }

  /** Members up to the closing brace, added to those already seen. */
  function ScanMembers(t: string, seen: Object): (r: Option<(Object, string)>)
    decreases |t|
  {
    var m := ScanMember(t);
    if m.None? || m.value.0 in seen then None else
      var all := seen[m.value.0 := m.value.1];
      var rest := SkipWs(m.value.2);
      if rest != "" && rest[0] == ',' then ScanMembers(rest[1..], all)
      else if rest != "" && rest[0] == '}' then Some((all, rest[1..]))
      else None
  }

  function ScanBody(t: string): Option<(Object, string)> {
    var t1 := SkipWs(t);
    if t1 != "" && t1[0] == '}' then Some((map[], t1[1..])) else ScanMembers(t1, map[])
  }

  /** The object a text stands for, if it is accepted. */
  function ScanObject(t: string): Option<Object> {
    var t1 := SkipWs(t);
    if t1 == "" || t1[0] != '{' then None else
      var body := ScanBody(t1[1..]);
      if body.None? || SkipWs(body.value.1) != "" then None else Some(body.value.0)
  }

  // ---------------------------------------------------------------- grammar

  predicate AllWs(w: string) {
    forall c | c in w :: IsWs(c)
  }

  /** One character of a string literal. */
  datatype Item = Plain(c: char) | Escape(letter: char)

  predicate ValidItem(item: Item) {
    match item
    case Plain(c) => ' ' <= c && c != '"' && c != '\\'
    case Escape(letter) => Unescape(letter).Some?
  }

  predicate ValidItems(items: seq<Item>) {
    forall i | 0 <= i < |items| :: ValidItem(items[i])
  }

  function ItemText(item: Item): string {
    match item
    case Plain(c) => [c]
    case Escape(letter) => ['\\', letter]
  }

  function ItemValue(item: Item): char
    requires ValidItem(item)
  {
    match item
    case Plain(c) => c
    case Escape(letter) => Unescape(letter).value
  }

  function ItemsText(items: seq<Item>): string {
    if items == [] then "" else ItemText(items[0]) + ItemsText(items[1..])
  }

  function ItemsValue(items: seq<Item>): string
    requires ValidItems(items)
  {
    if items == [] then "" else [ItemValue(items[0])] + ItemsValue(items[1..])
  }

  /** A quoted literal, or a bare scalar: any text without delimiters that does not start like something else. */
  datatype Scalar = Quoted(items: seq<Item>) | Bare(text: string)

  predicate ValidScalar(s: Scalar) {
    match s
    case Quoted(items) => ValidItems(items)
    case Bare(text) =>
      text != "" && text[0] !in {'"', '{', '['} && forall i | 0 <= i < |text| :: !EndsToken(text[i])
  }

  function ScalarText(s: Scalar): string {
    match s
    case Quoted(items) => "\"" + ItemsText(items) + "\""
    case Bare(text) => text
  }

  function ScalarValue(s: Scalar): Value
    requires ValidScalar(s)
  {
    match s
    case Quoted(items) => Value(true, ItemsValue(items))
    case Bare(text) => Value(false, text)
  }

  /** White space, a key, white space, a colon, white space, a scalar, white space. */
  datatype Member = Member(w1: string, key: seq<Item>, w2: string, w3: string, scalar: Scalar, w4: string)

  predicate ValidMember(m: Member) {
    AllWs(m.w1) && AllWs(m.w2) && AllWs(m.w3) && AllWs(m.w4) && ValidItems(m.key) && ValidScalar(m.scalar)
  }

  function MemberText(m: Member): string {
    m.w1 + ("\"" + ItemsText(m.key) + "\"") + m.w2 + ":" + m.w3 + ScalarText(m.scalar) + m.w4
  }

  /** One or more members separated by commas. */
  function MembersText(ms: seq<Member>): string
    requires ms != []
  {
    if |ms| == 1 then MemberText(ms[0]) else MemberText(ms[0]) + "," + MembersText(ms[1..])
  }

  predicate ValidMembers(ms: seq<Member>) {
    forall i | 0 <= i < |ms| :: ValidMember(ms[i])
  }

  function KeyOf(m: Member): string
    requires ValidMember(m)
  {
    ItemsValue(m.key)
  }

  /** No key twice, and none of those already seen. */
  predicate FreshKeys(ms: seq<Member>, seen: Object)
    requires ValidMembers(ms)
  {
    && (forall i | 0 <= i < |ms| :: KeyOf(ms[i]) !in seen)
    && (forall i, j | 0 <= i < j < |ms| :: KeyOf(ms[i]) != KeyOf(ms[j]))
  }

  function AddMembers(seen: Object, ms: seq<Member>): Object
    requires ValidMembers(ms)
    decreases |ms|
  {
    if ms == [] then seen else AddMembers(seen[KeyOf(ms[0]) := ScalarValue(ms[0].scalar)], ms[1..])
  }

  /** An object in braces with white space around it; `inner` is the white space of an empty one. */
  datatype Document = Document(before: string, inner: string, members: seq<Member>, after: string)

  predicate ValidDocument(d: Document) {
    && AllWs(d.before) && AllWs(d.inner) && AllWs(d.after)
    && ValidMembers(d.members) && FreshKeys(d.members, map[])
  }

  function DocumentText(d: Document): string {
    d.before + "{" + (if d.members == [] then d.inner else MembersText(d.members)) + "}" + d.after
  }

  function DocumentObject(d: Document): Object
    requires ValidDocument(d)
  {
    AddMembers(map[], d.members)
  }

  lemma FreshRest(ms: seq<Member>, seen: Object)
    requires ms != [] && ValidMembers(ms) && FreshKeys(ms, seen)
    ensures FreshKeys(ms[1..], seen[KeyOf(ms[0]) := ScalarValue(ms[0].scalar)])
  {
    hide ItemsValue, ScalarValue;
    var rest := ms[1..];
    forall i | 0 <= i < |rest| ensures KeyOf(rest[i]) != KeyOf(ms[0]) && KeyOf(rest[i]) !in seen {
      assert rest[i] == ms[i + 1];
    }
  }

  /** The object holds every member's value under its key, and nothing else. */
  lemma {:induction false} AddMembersMeaning(seen: Object, ms: seq<Member>)
    requires ValidMembers(ms) && FreshKeys(ms, seen)
    ensures forall k :: k in AddMembers(seen, ms) <==> k in seen || exists i :: 0 <= i < |ms| && KeyOf(ms[i]) == k
    ensures forall k | k in seen :: AddMembers(seen, ms)[k] == seen[k]
    ensures forall i | 0 <= i < |ms| :: AddMembers(seen, ms)[KeyOf(ms[i])] == ScalarValue(ms[i].scalar)
    decreases |ms|
  {
    hide KeyOf, ScalarValue;
    if ms != [] {
      var rest := ms[1..];
      FreshRest(ms, seen);
      AddMembersMeaning(seen[KeyOf(ms[0]) := ScalarValue(ms[0].scalar)], rest);
      assert forall i | 0 < i < |ms| :: ms[i] == rest[i - 1];
    }
  }

  // ---------------------------------------------------------------- the scanner accepts the grammar

  lemma {:induction false} SkipWsOver(w: string, u: string)
    requires AllWs(w)
    ensures SkipWs(w + u) == SkipWs(u)
  {
    if w == "" {
      assert w + u == u;
    } else {
      assert (w + u)[1..] == w[1..] + u;
      SkipWsOver(w[1..], u);
    }
  }

  lemma {:induction false} StringComplete(items: seq<Item>, u: string)
    requires ValidItems(items)
    ensures ScanString(ItemsText(items) + "\"" + u) == Some((ItemsValue(items), u))
  {
    var t := ItemsText(items) + "\"" + u;
    if items == [] {
      assert t[1..] == u;
    } else {
      var rest := ItemsText(items[1..]) + "\"" + u;
      assert t == ItemText(items[0]) + rest;
      StringComplete(items[1..], u);
      if items[0].Plain? {
        assert t[1..] == rest;
      } else {
        assert t[2..] == rest;
      }
    }
  }

  lemma {:induction false} TokenComplete(text: string, u: string)
    requires forall i | 0 <= i < |text| :: !EndsToken(text[i])
    requires u == "" || EndsToken(u[0])
    ensures ScanToken(text + u) == (text, u)
  {
    if text == "" {
      assert text + u == u;
    } else {
      assert (text + u)[1..] == text[1..] + u;
      assert (text + u)[0] == text[0] && !EndsToken(text[0]);
      TokenComplete(text[1..], u);
      assert [text[0]] + text[1..] == text;
    }
  }

  lemma ScalarComplete(s: Scalar, u: string)
    requires ValidScalar(s) && (u == "" || EndsToken(u[0]))
    ensures ScanValue(ScalarText(s) + u) == Some((ScalarValue(s), u))
    ensures ScalarText(s) != "" && !IsWs(ScalarText(s)[0])
  {
    match s
    case Quoted(items) =>
      assert ScalarText(s) + u == "\"" + (ItemsText(items) + "\"" + u);
      assert (ScalarText(s) + u)[1..] == ItemsText(items) + "\"" + u;
      StringComplete(items, u);
      assert ScalarText(s)[0] == '"';
    case Bare(text) =>
      assert !EndsToken(text[0]);
      TokenComplete(text, u);
  }

  lemma NoWs(u: string)
    requires u != "" && !IsWs(u[0])
    ensures SkipWs(u) == u
  {
  }

  lemma MemberComplete(m: Member, u: string)
    requires ValidMember(m) && u != "" && (u[0] == ',' || u[0] == '}')
    ensures ScanMember(MemberText(m) + u) == Some((KeyOf(m), ScalarValue(m.scalar), m.w4 + u))
  {
    hide SkipWs, ScanString, ScanValue, ItemsText, ItemsValue, ScalarText, ScalarValue;
    var end := m.w4 + u;
    var value := ScalarText(m.scalar) + end;
    var colon := ":" + (m.w3 + value);
    var afterKey := m.w2 + colon;
    var key := "\"" + (ItemsText(m.key) + "\"" + afterKey);
    MemberPieces(m, u);
    Skipped(m.w1, key);
    assert key[1..] == ItemsText(m.key) + "\"" + afterKey;
    StringComplete(m.key, afterKey);
    Skipped(m.w2, colon);
    assert colon[1..] == m.w3 + value;
    ScalarComplete(m.scalar, end);
    Skipped(m.w3, value);
  }

  lemma MemberPieces(m: Member, u: string)
    ensures MemberText(m) + u
         == m.w1 + ("\"" + (ItemsText(m.key) + "\"" + (m.w2 + (":" + (m.w3 + (ScalarText(m.scalar) + (m.w4 + u)))))))
  {
    hide ItemsText, ScalarText;
  }

  lemma Skipped(w: string, u: string)
    requires AllWs(w) && u != "" && !IsWs(u[0])
    ensures SkipWs(w + u) == u
  {
    SkipWsOver(w, u);
    NoWs(u);
  }

  lemma {:induction false} MembersComplete(ms: seq<Member>, seen: Object, u: string)
    requires ms != [] && ValidMembers(ms) && FreshKeys(ms, seen)
    ensures ScanMembers(MembersText(ms) + "}" + u, seen) == Some((AddMembers(seen, ms), u))
    decreases |ms|
  {
    hide ScanMember, MemberText, ScalarValue, ItemsValue, SkipWs;
    var m := ms[0];
    var more := seen[KeyOf(m) := ScalarValue(m.scalar)];
    if |ms| == 1 {
      var end := "}" + u;
      assert MembersText(ms) + "}" + u == MemberText(m) + end;
      MemberComplete(m, end);
      SkipWsOver(m.w4, end);
      NoWs(end);
      assert end[1..] == u;
      assert AddMembers(seen, ms) == more;
    } else {
      var rest := ms[1..];
      var end := "," + (MembersText(rest) + "}" + u);
      assert MembersText(ms) + "}" + u == MemberText(m) + end;
      MemberComplete(m, end);
      SkipWsOver(m.w4, end);
      NoWs(end);
      assert end[1..] == MembersText(rest) + "}" + u;
      FreshRest(ms, seen);
      MembersComplete(rest, more, u);
    }
  }

  lemma MembersTextStarts(ms: seq<Member>, u: string)
    requires ms != [] && ValidMembers(ms)
    ensures var t := SkipWs(MembersText(ms) + u); t != "" && t[0] == '"'
  {
    hide SkipWs, ItemsText, ScalarText;
    var m := ms[0];
    var rest := (MembersText(ms) + u)[|m.w1|..];
    MemberPieces(m, "");
    assert MemberText(m) + "" == MemberText(m);
    assert MembersText(ms) + u == m.w1 + rest && rest != "" && rest[0] == '"';
    Skipped(m.w1, rest);
  }

  /** Every document of the grammar is accepted, with its meaning. */
  lemma DocumentComplete(d: Document)
    requires ValidDocument(d)
    ensures ScanObject(DocumentText(d)) == Some(DocumentObject(d))
  {
    hide SkipWs, ScanMembers, AddMembers, MembersText;
    var end := "}" + d.after;
    var body := (if d.members == [] then d.inner else MembersText(d.members)) + end;
    assert DocumentText(d) == d.before + ("{" + body);
    SkipWsOver(d.before, "{" + body);
    NoWs("{" + body);
    assert ("{" + body)[1..] == body;
    SkipWsOver(d.after, "");
    assert d.after + "" == d.after;
    SkipNothing();
    if d.members == [] {
      SkipWsOver(d.inner, end);
      NoWs(end);
      assert end[1..] == d.after;
      AddNothing();
    } else {
      MembersTextStarts(d.members, end);
      SkipTwice(body, map[]);
      assert body == MembersText(d.members) + "}" + d.after;
      MembersComplete(d.members, map[], d.after);
    }
  }

  lemma SkipNothing()
    ensures SkipWs("") == ""
  {
  }

  lemma AddNothing()
    ensures AddMembers(map[], []) == map[]
  {
  }

  /** The white space before the first key is skipped before the member is scanned and again as part of it. */
  lemma SkipTwice(t: string, seen: Object)
    ensures ScanMembers(SkipWs(t), seen) == ScanMembers(t, seen)
  {
    hide ScanString, ScanValue;
    assert SkipWs(SkipWs(t)) == SkipWs(t);
    assert ScanMember(SkipWs(t)) == ScanMember(t);
  }

  // ---------------------------------------------------------------- and nothing else

  lemma {:induction false} WsSound(t: string) returns (w: string)
    ensures AllWs(w) && t == w + SkipWs(t)
  {
    if t != "" && IsWs(t[0]) {
      var v := WsSound(t[1..]);
      w := [t[0]] + v;
    } else {
      w := "";
    }
  }

  lemma {:induction false} StringSound(t: string) returns (items: seq<Item>)
    requires ScanString(t).Some?
    ensures ValidItems(items) && ItemsValue(items) == ScanString(t).value.0
    ensures t == ItemsText(items) + "\"" + ScanString(t).value.1
    decreases |t|
  {
    if t[0] == '"' {
      items := [];
    } else {
      var item, rest := Plain(t[0]), t[1..];
      if t[0] == '\\' {
        item, rest := Escape(t[1]), t[2..];
      }
      var more := StringSound(rest);
      items := [item] + more;
      assert items[1..] == more;
      assert t == ItemText(item) + rest;
    }
  }

  lemma {:induction false} TokenSound(t: string)
    ensures forall i | 0 <= i < |ScanToken(t).0| :: !EndsToken(ScanToken(t).0[i])
  {
    if t != "" && !EndsToken(t[0]) {
      TokenSound(t[1..]);
    }
  }

  lemma ScalarSound(t: string) returns (s: Scalar)
    requires ScanValue(t).Some?
    ensures ValidScalar(s) && ScalarValue(s) == ScanValue(t).value.0 && t == ScalarText(s) + ScanValue(t).value.1
  {
    if t[0] == '"' {
      var items := StringSound(t[1..]);
      s := Quoted(items);
      assert t == "\"" + t[1..];
    } else {
      TokenSound(t);
      s := Bare(ScanToken(t).0);
    }
  }

  lemma MemberSound(t: string) returns (m: Member)
    requires ScanMember(t).Some?
    ensures var (k, v, rest) := ScanMember(t).value;
            ValidMember(m) && m.w4 == "" && KeyOf(m) == k && ScalarValue(m.scalar) == v && t == MemberText(m) + rest
  {
    hide SkipWs, ScanString, ScanValue, ItemsText, ItemsValue, ScalarText, ScalarValue;
    var w1 := WsSound(t);
    var t1 := SkipWs(t);
    var key := StringSound(t1[1..]);
    var afterKey := ScanString(t1[1..]).value.1;
    var w2 := WsSound(afterKey);
    var t2 := SkipWs(afterKey);
    var w3 := WsSound(t2[1..]);
    var t3 := SkipWs(t2[1..]);
    var scalar := ScalarSound(t3);
    m := Member(w1, key, w2, w3, scalar, "");
    assert t1 == "\"" + t1[1..] && t2 == ":" + t2[1..];
    MemberPieces(m, ScanValue(t3).value.1);
  }

  lemma {:induction false} MembersSound(t: string, seen: Object) returns (ms: seq<Member>)
    requires ScanMembers(t, seen).Some?
    ensures ms != [] && ValidMembers(ms) && FreshKeys(ms, seen)
    ensures t == MembersText(ms) + "}" + ScanMembers(t, seen).value.1
    ensures AddMembers(seen, ms) == ScanMembers(t, seen).value.0
    decreases |t|
  {
    hide ScanMember, MemberText, ScalarValue, ItemsValue, SkipWs, KeyOf;
    var m := MemberSound(t);
    var (k, v, rest) := ScanMember(t).value;
    var w4 := WsSound(rest);
    var r := SkipWs(rest);
    var last := m.(w4 := w4);
    TrailingWs(m, w4, r);
    assert r == [r[0]] + r[1..];
    if r[0] == ',' {
      var more := MembersSound(r[1..], seen[k := v]);
      ms := [last] + more;
      assert ms[1..] == more;
      Prepend(last, more, seen);
    } else {
      ms := [last];
      assert AddMembers(seen, ms) == seen[k := v];
    }
  }

  lemma TrailingWs(m: Member, w4: string, r: string)
    requires m.w4 == ""
    ensures MemberText(m) + (w4 + r) == MemberText(m.(w4 := w4)) + r
    ensures AllWs(w4) && ValidMember(m) ==> ValidMember(m.(w4 := w4)) && KeyOf(m.(w4 := w4)) == KeyOf(m)
  {
    hide ItemsText, ScalarText;
  }

  lemma Prepend(m: Member, ms: seq<Member>, seen: Object)
    requires ValidMember(m) && ValidMembers(ms) && KeyOf(m) !in seen
    requires FreshKeys(ms, seen[KeyOf(m) := ScalarValue(m.scalar)])
    ensures ValidMembers([m] + ms) && FreshKeys([m] + ms, seen)
  {
    hide ItemsValue, ScalarValue;
    var all := [m] + ms;
    var more := seen[KeyOf(m) := ScalarValue(m.scalar)];
    forall i, j | 0 <= i < j < |all| ensures KeyOf(all[i]) != KeyOf(all[j]) && KeyOf(all[j]) !in seen {
      assert all[j] == ms[j - 1] && KeyOf(ms[j - 1]) !in more;
      if i > 0 {
        assert all[i] == ms[i - 1];
      }
    }
    assert KeyOf(all[0]) !in seen;
  }

  lemma DocumentSound(t: string) returns (d: Document)
    requires ScanObject(t).Some?
    ensures ValidDocument(d) && DocumentText(d) == t && DocumentObject(d) == ScanObject(t).value
  {
    hide SkipWs, ScanMembers, AddMembers, MembersText;
    var before := WsSound(t);
    var t1 := SkipWs(t);
    var t2 := t1[1..];
    var inner := WsSound(t2);
    var t3 := SkipWs(t2);
    var rest := ScanBody(t2).value.1;
    var after := WsSound(rest);
    assert t1 == "{" + t2 && rest == after;
    if t3 != "" && t3[0] == '}' {
      d := Document(before, inner, [], after);
      AddNothing();
      assert t3 == "}" + t3[1..];
    } else {
      SkipTwice(t2, map[]);
      var ms := MembersSound(t2, map[]);
      d := Document(before, "", ms, after);
    }
  }

  /** The scanner accepts exactly the grammar, and an accepted text means what the grammar says. */
  lemma ScanObjectIsGrammar(t: string, o: Object)
    ensures ScanObject(t) == Some(o) <==>
              exists d :: ValidDocument(d) && DocumentText(d) == t && DocumentObject(d) == o
  {
    if ScanObject(t) == Some(o) {
      var d := DocumentSound(t);
    }
    forall d | ValidDocument(d) && DocumentText(d) == t ensures ScanObject(t) == Some(DocumentObject(d)) {
      DocumentComplete(d);
    }
  }
}
