/** JSON documents as the store keeps them, and the two ways their values are compared:
    by Python after decoding, and by SQLite through json_extract. */
module Values {
  import opened Decimal

  datatype Json =
    | Null
    | Bool(b: bool)
    | Num(n: int)
    | Str(s: string)
    | Arr(items: seq<Json>)
    | Obj(fields: map<string, Json>)

  type Doc = map<string, Json>

  /** How SQLite writes a double outside the 64-bit range: one digit, a point and the rest, or Inf. */
  datatype Mantissa = Infinite | Scientific(lead: char, rest: string)

  /** What one Python and one SQLite make of the values they do not treat alike: str() and the JSON
      text of nested values, the double nearest to an integer and how it is written, and whether
      json_extract ends a text at its first NUL, as some releases do. The details play no part here,
      so they are parameters. */
  datatype Text = Text(repr: Json -> string, render: Json -> string, near: int -> int, digits: int -> Mantissa,
                       cuts: bool)

  /** The integers SQLite has, and the only ones Python's sqlite3 binds. */
  predicate Fits64(n: int) {
    -0x8000_0000_0000_0000 <= n < 0x8000_0000_0000_0000
  }

  /** The double an integer outside that range is read as, which lies no nearer to zero. */
  function Near(n: int, text: Text): (r: int)
    requires !Fits64(n)
    ensures n > 0 <==> r > 0
    ensures Fits64(r) ==> r == -0x8000_0000_0000_0000
  {
    var r := text.near(n);
    if n > 0 then if r < 0x8000_0000_0000_0000 then 0x8000_0000_0000_0000 else r
    else if r > -0x8000_0000_0000_0000 then -0x8000_0000_0000_0000 else r
  }

  predicate Plain(s: string) {
    '\0' !in s
  }

  function UpToNul(s: string): (r: string)
    ensures Plain(r) && (r == s <==> Plain(s))
  {
    if s == [] || s[0] == '\0' then [] else [s[0]] + UpToNul(s[1..])
  }

  /** A stored text as json_extract gives it back. */
  function ReadText(s: string, text: Text): (r: string)
    ensures r == s <==> ReadsBack(s, text)
    ensures ReadsBack(r, text)
  {
    if text.cuts then UpToNul(s) else s
  }

  predicate ReadsBack(s: string, text: Text) {
    text.cuts ==> Plain(s)
  }

  /** What one call takes from outside besides: the clock and its uuid4 draws. */
  datatype Env = Env(now: string, uuid: nat -> string, text: Text)

  /** row.get(column): an absent column reads as None. */
  function Get(d: Doc, column: string): Json {
    if column in d then d[column] else Null
  }

  predicate Nested(v: Json) {
    v.Arr? || v.Obj?
  }

  predicate Truthy(v: Json) {
    match v
    case Null => false
    case Bool(b) => b
    case Num(n) => n != 0
    case Str(s) => s != ""
    case Arr(items) => items != []
    case Obj(fields) => fields != map[]
  }

  /** None, False, 0 and whatever is empty: the values that `or` and setdefault's guards pass over. */
  predicate SaysNothing(v: Json) {
    v == Null || v == Bool(false) || v == Num(0) || v == Str("") || v == Arr([]) || v == Obj(map[])
  }

  lemma TruthySays(v: Json)
    ensures Truthy(v) <==> !SaysNothing(v)
  {
  }

  /** Python and SQLite both take True for 1 and False for 0. */
  function Norm(v: Json): Json {
    match v
    case Bool(b) => Num(if b then 1 else 0)
    case _ => v
  }

  predicate PyEq(a: Json, b: Json) {
    Norm(a) == Norm(b)
  }

  /** str(value) */
  function PyStr(v: Json, text: Text): string {
    match v
    case Null => "None"
    case Bool(b) => if b then "True" else "False"
    case Num(n) => IntText(n)
    case Str(s) => s
    case _ => text.repr(v)
  }

  /** String order by code point, which is also SQLite's byte order on UTF-8. */
  predicate StrLt(a: string, b: string) {
    b != [] && (a == [] || a[0] < b[0] || (a[0] == b[0] && StrLt(a[1..], b[1..])))
  }

  lemma {:induction false} StrLtTotal(a: string, b: string)
    ensures a == b || StrLt(a, b) || StrLt(b, a)
    ensures !(StrLt(a, b) && (a == b || StrLt(b, a)))
  {
    if a != [] && b != [] && a[0] == b[0] {
      StrLtTotal(a[1..], b[1..]);
      assert a == [a[0]] + a[1..] && b == [b[0]] + b[1..];
    }
  }

  lemma {:induction false} StrLtTransitive(a: string, b: string, c: string)
    requires StrLt(a, b) && StrLt(b, c)
    ensures StrLt(a, c)
  {
    if a != [] && a[0] == b[0] == c[0] {
      StrLtTransitive(a[1..], b[1..], c[1..]);
    }
  }
}
