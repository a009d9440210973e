/**
  The bytes an audit payload is hashed as: compact JSON, object members in the
  order of their keys. A text is a sequence of characters; a number is the token it is written as.
 */
module AuditJson {
  import opened Options

  datatype Json =
    | Null
    | Bool(value: bool)
    | Number(token: NumberToken)
    | Text(s: string)
    | Array(items: seq<Json>)
    | Object(members: seq<Member>)

  datatype Member = Member(key: string, value: Json)

  predicate IsDigit(c: char) {
    '0' <= c <= '9'
  }

  predicate IsNumberChar(c: char) {
    IsDigit(c) || c == '-' || c == '+' || c == '.' || c == 'e' || c == 'E'
  }

  /** Whole or not, a number's token has only these characters, and does not begin like another kind of value. */
  type NumberToken = s: string | |s| > 0 && (s[0] == '-' || IsDigit(s[0])) && forall c :: c in s ==> IsNumberChar(c)
    witness "0"

  function Digit(n: nat): (c: char)
    requires n < 10
    ensures IsDigit(c)
  {
    '0' + n as char
  }

  function HexDigit(n: nat): char
    requires n < 16
  {
    if n < 10 then Digit(n) else 'a' + (n - 10) as char
  }

  function Decimal(n: nat): (s: string)
    ensures |s| > 0 && forall c :: c in s ==> IsDigit(c)
  {
    if n < 10 then [Digit(n)] else Decimal(n / 10) + [Digit(n % 10)]
  }

  /** The token of a whole number. */
  function WholeNumber(n: int): NumberToken {
    var digits := Decimal(if n < 0 then -n else n);
    assert digits[0] in digits;
    if n < 0 then "-" + digits else digits
  }

  function EncodeChar(c: char): string {
    if c == '"' then "\\\""
    else if c == '\\' then "\\\\"
    else if c as int == 8 then "\\b"
    else if c == '\t' then "\\t"
    else if c == '\n' then "\\n"
    else if c as int == 12 then "\\f"
    else if c == '\r' then "\\r"
    else if (c as int) < 32 then "\\u00" + [HexDigit(c as int / 16), HexDigit(c as int % 16)]
    else [c]
  }

  /** The characters of a text, and the quote that ends it. */
  function EncodeText(s: string): string {
    if |s| == 0 then "\"" else EncodeChar(s[0]) + EncodeText(s[1..])
  }

  function Encode(v: Json): string {
    match v
    case Null => "null"
    case Bool(b) => if b then "true" else "false"
    case Number(token) => token
    case Text(s) => "\"" + EncodeText(s)
    case Array(items) => "[" + EncodeItems(items, true)
    case Object(members) => "{" + EncodeMembers(members, true)
  }

  function Comma(first: bool): string {
    if first then "" else ","
  }

  function EncodeItems(items: seq<Json>, first: bool): string {
    if |items| == 0 then "]"
    else Comma(first) + (Encode(items[0]) + EncodeItems(items[1..], false))
  }

  function EncodeMember(m: Member): string {
    "\"" + (EncodeText(m.key) + (":" + Encode(m.value)))
  }

  function EncodeMembers(members: seq<Member>, first: bool): string {
    if |members| == 0 then "}"
    else Comma(first) + (EncodeMember(members[0]) + EncodeMembers(members[1..], false))
  }

  // ---------- Reading the bytes back is unambiguous ----------

  lemma Cancel(x: string, r: string, s: string)
    requires x + r == x + s
    ensures r == s
  {
    assert r == (x + r)[|x|..];
    assert s == (x + s)[|x|..];
  }

  lemma CancelEqual(x: string, y: string, r: string, s: string)
    requires x + r == y + s && |x| == |y|
    ensures x == y && r == s
  {
    assert x == (x + r)[..|x|];
    assert y == (y + s)[..|y|];
    Cancel(x, r, s);
  }

  /** What may follow a number. */
  predicate Stops(r: string) {
    |r| > 0 ==> !IsNumberChar(r[0])
  }

  function NumberRun(s: string): nat {
    if |s| == 0 || !IsNumberChar(s[0]) then 0 else 1 + NumberRun(s[1..])
  }

  lemma {:induction false} NumberRunIsWhole(x: string, r: string)
    requires Stops(r) && forall c :: c in x ==> IsNumberChar(c)
    ensures NumberRun(x + r) == |x|
  {
    if |x| == 0 {
      assert x + r == r;
    } else {
      assert x[0] in x && (x + r)[1..] == x[1..] + r;
      NumberRunIsWhole(x[1..], r);
    }
  }

  lemma NumberIsReadable(m: NumberToken, n: NumberToken, r: string, s: string)
    requires Stops(r) && Stops(s) && m + r == n + s
    ensures m == n && r == s
  {
    NumberRunIsWhole(m, r);
    NumberRunIsWhole(n, s);
    CancelEqual(m, n, r, s);
  }

  function Value(s: string): int {
    if |s| == 0 then 0 else Value(s[..|s| - 1]) * 10 + (s[|s| - 1] as int - '0' as int)
  }

  lemma {:induction false} DecimalHasValue(n: nat)
    ensures Value(Decimal(n)) == n
  {
    if n >= 10 {
      DecimalHasValue(n / 10);
      assert Decimal(n)[..|Decimal(n)| - 1] == Decimal(n / 10);
    } else {
      assert Value([]) == 0;
    }
  }

  /** Whole numbers with one token are one number. */
  lemma WholeNumberIsReadable(m: int, n: int)
    requires WholeNumber(m) == WholeNumber(n)
    ensures m == n
  {
    var x, y := Decimal(if m < 0 then -m else m), Decimal(if n < 0 then -n else n);
    assert x[0] in x && y[0] in y;
    assert WholeNumber(m)[0] == WholeNumber(n)[0];
    if m < 0 {
      Cancel("-", x, y);
    }
    DecimalHasValue(if m < 0 then -m else m);
    DecimalHasValue(if n < 0 then -n else n);
  }

  lemma CharIsReadable(c: char, d: char, r: string, s: string)
    requires EncodeChar(c) + r == EncodeChar(d) + s
    ensures c == d && r == s
  {
    var x, y := EncodeChar(c), EncodeChar(d);
    assert x[0] == (x + r)[0] == (y + s)[0] == y[0];
    if x[0] == '\\' {
      assert x[1] == (x + r)[1] == (y + s)[1] == y[1];
    }
    CancelEqual(x, y, r, s);
    if |x| == 6 {
      assert x[4] == y[4] && x[5] == y[5];
    }
  }

  lemma TextBegins(a: string)
    ensures |EncodeText(a)| > 0
    ensures EncodeText(a)[0] == '"' <==> |a| == 0
  {
  }

  lemma Reassociate(x: string, y: string, r: string)
    ensures (x + y) + r == x + (y + r)
  {
  }

  lemma {:induction false} TextIsReadable(a: string, b: string, r: string, s: string)
    requires EncodeText(a) + r == EncodeText(b) + s
    ensures a == b && r == s
  {
    TextBegins(a);
    TextBegins(b);
    hide EncodeChar;
    assert EncodeText(a)[0] == (EncodeText(a) + r)[0] == (EncodeText(b) + s)[0] == EncodeText(b)[0];
    if |a| == 0 {
      Cancel("\"", r, s);
    } else {
      Reassociate(EncodeChar(a[0]), EncodeText(a[1..]), r);
      Reassociate(EncodeChar(b[0]), EncodeText(b[1..]), s);
      CharIsReadable(a[0], b[0], EncodeText(a[1..]) + r, EncodeText(b[1..]) + s);
      TextIsReadable(a[1..], b[1..], r, s);
    }
  }

  /** The first character tells the kind of value. */
  predicate Begins(v: Json, c: char) {
    match v
    case Null => c == 'n'
    case Bool(b) => c == if b then 't' else 'f'
    case Number(_) => c == '-' || IsDigit(c)
    case Text(_) => c == '"'
    case Array(_) => c == '['
    case Object(_) => c == '{'
  }

  lemma EncodeBegins(v: Json)
    ensures |Encode(v)| > 0 && Begins(v, Encode(v)[0])
  {
  }

  lemma ItemsStop(items: seq<Json>, r: string)
    ensures Stops(EncodeItems(items, false) + r)
  {
  }

  lemma MembersStop(members: seq<Member>, r: string)
    ensures Stops(EncodeMembers(members, false) + r)
  {
  }

  /** No two values, each followed by something that ends it, have the same bytes. */
  lemma {:induction false} EncodeIsReadable(v: Json, w: Json, r: string, s: string)
    requires Stops(r) && Stops(s) && Encode(v) + r == Encode(w) + s
    ensures v == w && r == s
    decreases v
  {
    EncodeBegins(v);
    EncodeBegins(w);
    assert Encode(v)[0] == (Encode(v) + r)[0] == (Encode(w) + s)[0] == Encode(w)[0];
    SameKind(v, w, Encode(v)[0]);
    hide Begins, Stops;
    match v
    case Null => Cancel("null", r, s);
    case Bool(b) => Cancel(Encode(v), r, s);
    case Number(token) => NumberIsReadable(token, w.token, r, s);
    case Text(t) =>
      Unquote("\"", EncodeText(t), EncodeText(w.s), r, s);
      TextIsReadable(t, w.s, r, s);
    case Array(items) =>
      Unquote("[", EncodeItems(items, true), EncodeItems(w.items, true), r, s);
      ItemsAreReadable(items, w.items, true, r, s);
    case Object(members) =>
      Unquote("{", EncodeMembers(members, true), EncodeMembers(w.members, true), r, s);
      MembersAreReadable(members, w.members, true, r, s);
  }

  lemma Unquote(q: string, x: string, y: string, r: string, s: string)
    requires (q + x) + r == (q + y) + s
    ensures x + r == y + s
  {
    Reassociate(q, x, r);
    Reassociate(q, y, s);
    Cancel(q, x + r, y + s);
  }

  lemma SameKind(v: Json, w: Json, c: char)
    requires Begins(v, c) && Begins(w, c)
    ensures v.Null? ==> w.Null?
    ensures v.Bool? ==> v == w
    ensures v.Number? ==> w.Number?
    ensures v.Text? ==> w.Text?
    ensures v.Array? ==> w.Array?
    ensures v.Object? ==> w.Object?
  {
  }

  /** The list ends where the other one does: a value never begins like an end, nor does a comma. */
  lemma ItemsEndTogether(a: seq<Json>, b: seq<Json>, first: bool, r: string, s: string)
    requires EncodeItems(a, first) + r == EncodeItems(b, first) + s
    ensures |a| == 0 <==> |b| == 0
  {
    if |a| > 0 {
      EncodeBegins(a[0]);
      assert EncodeItems(a, first)[0] == if first then Encode(a[0])[0] else ',';
    }
    if |b| > 0 {
      EncodeBegins(b[0]);
      assert EncodeItems(b, first)[0] == if first then Encode(b[0])[0] else ',';
    }
    assert EncodeItems(a, first)[0] == (EncodeItems(a, first) + r)[0];
    assert EncodeItems(b, first)[0] == (EncodeItems(b, first) + s)[0];
  }

  lemma {:induction false} ItemsAreReadable(a: seq<Json>, b: seq<Json>, first: bool, r: string, s: string)
    requires EncodeItems(a, first) + r == EncodeItems(b, first) + s
    ensures a == b && r == s
    decreases a
  {
    ItemsEndTogether(a, b, first, r, s);
    if |a| == 0 {
      Cancel("]", r, s);
    } else {
      var x, y := EncodeItems(a[1..], false) + r, EncodeItems(b[1..], false) + s;
      Unquote(Comma(first), Encode(a[0]) + EncodeItems(a[1..], false), Encode(b[0]) + EncodeItems(b[1..], false), r, s);
      Reassociate(Encode(a[0]), EncodeItems(a[1..], false), r);
      Reassociate(Encode(b[0]), EncodeItems(b[1..], false), s);
      ItemsStop(a[1..], r);
      ItemsStop(b[1..], s);
      EncodeIsReadable(a[0], b[0], x, y);
      ItemsAreReadable(a[1..], b[1..], false, r, s);
    }
  }

  lemma {:induction false} MembersAreReadable(a: seq<Member>, b: seq<Member>, first: bool, r: string, s: string)
    requires EncodeMembers(a, first) + r == EncodeMembers(b, first) + s
    ensures a == b && r == s
    decreases a
  {
    assert EncodeMembers(a, first)[0] == (EncodeMembers(a, first) + r)[0];
    assert EncodeMembers(b, first)[0] == (EncodeMembers(b, first) + s)[0];
    if |a| == 0 {
      Cancel("}", r, s);
    } else {
      var x, y := EncodeMembers(a[1..], false) + r, EncodeMembers(b[1..], false) + s;
      Unquote(Comma(first), EncodeMember(a[0]) + EncodeMembers(a[1..], false),
              EncodeMember(b[0]) + EncodeMembers(b[1..], false), r, s);
      Reassociate(EncodeMember(a[0]), EncodeMembers(a[1..], false), r);
      Reassociate(EncodeMember(b[0]), EncodeMembers(b[1..], false), s);
      MembersStop(a[1..], r);
      MembersStop(b[1..], s);
      MemberIsReadable(a[0], b[0], x, y);
      MembersAreReadable(a[1..], b[1..], false, r, s);
    }
  }

  lemma {:induction false} MemberIsReadable(m: Member, n: Member, r: string, s: string)
    requires Stops(r) && Stops(s) && EncodeMember(m) + r == EncodeMember(n) + s
    ensures m == n && r == s
    decreases m
  {
    hide Encode, EncodeText, Stops;
    var restM, restN := ":" + Encode(m.value), ":" + Encode(n.value);
    Unquote("\"", EncodeText(m.key) + restM, EncodeText(n.key) + restN, r, s);
    Reassociate(EncodeText(m.key), restM, r);
    Reassociate(EncodeText(n.key), restN, s);
    TextIsReadable(m.key, n.key, restM + r, restN + s);
    Unquote(":", Encode(m.value), Encode(n.value), r, s);
    EncodeIsReadable(m.value, n.value, r, s);
  }

  // ---------- The audit payload ----------

  datatype AuditPayload = AuditPayload(
    tenantId: string,
    actorUserId: string,
    actorEmail: string,
    actorRoles: seq<string>,
    action: string,
    resourceType: string,
    resourceId: Option<string>,
    targetTenantId: Option<string>,
    requestId: Option<string>,
    metadata: Json)

  function OptionalText(o: Option<string>): Json {
    if o.Some? then Text(o.value) else Null
  }

  function Texts(s: seq<string>): seq<Json> {
    seq(|s|, i requires 0 <= i < |s| => Text(s[i]))
  }

  function ToJson(p: AuditPayload): Json {
    Object([
      Member("action", Text(p.action)),
      Member("actor_email", Text(p.actorEmail)),
      Member("actor_roles", Array(Texts(p.actorRoles))),
      Member("actor_user_id", Text(p.actorUserId)),
      Member("metadata", p.metadata),
      Member("request_id", OptionalText(p.requestId)),
      Member("resource_id", OptionalText(p.resourceId)),
      Member("resource_type", Text(p.resourceType)),
      Member("target_tenant_id", OptionalText(p.targetTenantId)),
      Member("tenant_id", Text(p.tenantId))])
  }

  function Bytes(p: AuditPayload): string {
    Encode(ToJson(p))
  }

  lemma BytesBegin(p: AuditPayload)
    ensures |Bytes(p)| > 0 && Bytes(p)[0] == '{'
  {
  }

  lemma TextsDiffer(a: seq<string>, b: seq<string>)
    requires Texts(a) == Texts(b)
    ensures a == b
  {
    assert |a| == |Texts(a)| == |b|;
    assert forall i :: 0 <= i < |a| ==> Texts(a)[i] == Text(a[i]) && Texts(b)[i] == Text(b[i]);
  }

  /** Payloads with the same bytes are the same payload. */
  lemma BytesTellPayload(p: AuditPayload, q: AuditPayload)
    requires Bytes(p) == Bytes(q)
    ensures p == q
  {
    assert Bytes(p) + "" == Bytes(p) && Bytes(q) + "" == Bytes(q);
    EncodeIsReadable(ToJson(p), ToJson(q), "", "");
    var a, b := ToJson(p).members, ToJson(q).members;
    assert forall i :: 0 <= i < 10 ==> a[i].value == b[i].value;
    assert a[2].value.items == b[2].value.items;
    TextsDiffer(p.actorRoles, q.actorRoles);
    assert a[0].value == b[0].value && a[1].value == b[1].value && a[3].value == b[3].value && a[4].value == b[4].value
        && a[5].value == b[5].value && a[6].value == b[6].value && a[7].value == b[7].value && a[8].value == b[8].value
        && a[9].value == b[9].value;
  }
}
