/** JSON values as the request handlers see them, and the Python text of the ones used as ids. */
module JsonValues {
  datatype Json =
    | JNull
    | JBool(b: bool)
    | JInt(n: int)
    | JFloat(x: real)
    | JStr(s: string)
    | JList(items: seq<Json>)
    | JObj(fields: map<string, Json>)

  predicate IsScalar(j: Json) { !j.JList? && !j.JObj? }

  /** `d.get(key)`: an absent member reads as null. */
  function Get(d: map<string, Json>, key: string): Json {
    if key in d then d[key] else JNull
  }

  function Digits(n: nat): string {
    if n < 10 then ["0123456789"[n]] else Digits(n / 10) + ["0123456789"[n % 10]]
  }

  function IntText(n: int): string { if n < 0 then "-" + Digits(-n) else Digits(n) }

  /** The number a text of digits stands for. */
  function DigitsValue(s: string): int {
    if s == "" then 0 else DigitsValue(s[..|s| - 1]) * 10 + (s[|s| - 1] as int - '0' as int)
  }

  function IntValue(s: string): int {
    if s != "" && s[0] == '-' then -DigitsValue(s[1..]) else DigitsValue(s)
  }

  lemma {:induction false} DigitsReadBack(n: nat)
    ensures DigitsValue(Digits(n)) == n
    ensures Digits(n) != "" && '0' <= Digits(n)[0] <= '9'
  {
    if n >= 10 {
      DigitsReadBack(n / 10);
      assert Digits(n)[..|Digits(n)| - 1] == Digits(n / 10);
    } else {
      assert Digits(n)[..0] == "";
    }
    assert forall d :: 0 <= d < 10 ==> "0123456789"[d] as int - '0' as int == d;
  }

  /** The text of an integer reads back as the integer, so two integers never share one. */
  lemma IntTextReadsBack(n: int)
    ensures IntValue(IntText(n)) == n && IntText(n) != ""
  {
    DigitsReadBack(if n < 0 then -n else n);
    Signed(Digits(if n < 0 then -n else n));
  }

  lemma Signed(s: string)
    requires s != "" && '0' <= s[0] <= '9'
    ensures IntValue("-" + s) == -DigitsValue(s) && IntValue(s) == DigitsValue(s)
  {
    assert ("-" + s)[1..] == s;
  }

  /** `str(value)`; the text of floats and containers is left to `repr`. */
  function PyStr(repr: Json -> string, j: Json): string {
    match j
    case JNull => "None"
    case JBool(b) => if b then "True" else "False"
    case JInt(n) => IntText(n)
    case JStr(s) => s
    case _ => repr(j)
  }

  /** The text of each kind of scalar. */
  lemma ScalarTexts(repr: Json -> string, n: int, s: string)
    ensures PyStr(repr, JNull) == "None" && PyStr(repr, JBool(true)) == "True" && PyStr(repr, JBool(false)) == "False"
    ensures PyStr(repr, JStr(s)) == s && IntValue(PyStr(repr, JInt(n))) == n
  {
    IntTextReadsBack(n);
  }
}

/** `SidecarRejection`: one item refused by the write policy or by the offload. */
module Rejections {
  import opened Options

  datatype Rejection = Rejection(
    geoid: Option<string>, externalId: Option<string>, sidecarId: Option<string>, matcher: Option<string>,
    reason: string, message: string, policySource: string)
}
