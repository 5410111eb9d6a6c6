// The text of a tree: what print_value leaves in its buffer (3rdParty/libcjson/cJSON.c:109-246, 285-505).
module JsonText {
  import opened CText
  import opened Json

  function Digit(d: int): char
    requires 0 <= d < 16
  {
    "0123456789abcdef"[d]
  }

  // "%d" for a number that is not negative
  function Decimal(n: nat): string {
    if n < 10 then [Digit(n)] else Decimal(n / 10) + [Digit(n % 10)]
  }

  // "%d"
  function IntText(n: int): string {
    if n < 0 then "-" + Decimal(-n) else Decimal(n)
  }

  const BACKSPACE: char := 8 as char
  const FORMFEED: char := 12 as char

  // The characters that are written as a backslash and a letter.
  predicate HasShortForm(c: char) {
    c in "\"\\\n\r\t" || c == BACKSPACE || c == FORMFEED
  }

  // How one character of a string literal is written.
  function Escape(c: char): string
  {
    if c == '"' then "\\\""
    else if c == '\\' then "\\\\"
    else if c == BACKSPACE then "\\b"
    else if c == FORMFEED then "\\f"
    else if c == '\n' then "\\n"
    else if c == '\r' then "\\r"
    else if c == '\t' then "\\t"
    else if c < ' ' then "\\u00" + [Digit(c as int / 16), Digit(c as int % 16)]
    else [c]
  }

  function EscapeAll(s: string): string {
    if s == [] then [] else Escape(s[0]) + EscapeAll(s[1..])
  }

  function Quote(s: string): string {
    "\"" + EscapeAll(s) + "\""
  }

  function Tabs(n: int): string {
    if n <= 0 then [] else "\t" + Tabs(n - 1)
  }

  // print_value(item, depth, fmt)
  function Text(v: Json, depth: nat, fmt: bool): string
    requires Plain(v)
    decreases v, 1
  {
    match v
    case Null => "null"
    case False => "false"
    case True => "true"
    case Number(d) => IntText(d.Floor)
    case String(s) => Quote(s)
    case Array(items) => "[" + ItemsText(items, depth + 1, fmt) + "]"
    case Object(members) =>
      if members == [] then
        "{" + (if fmt then "\n" + Tabs(depth - 1) else "") + "}"
      else
        "{" + (if fmt then "\n" else "") + MembersText(members, depth + 1, fmt)
        + (if fmt then Tabs(depth) else "") + "}"
  }

  function Comma(fmt: bool): string {
    if fmt then ", " else ","
  }

  // The items of an array, separated.
  function ItemsText(items: seq<Json>, depth: nat, fmt: bool): string
    requires PlainItems(items)
    decreases items, 0
  {
    if items == [] then []
    else
      Text(items[0], depth, fmt)
      + (if |items| == 1 then [] else Comma(fmt))
      + ItemsText(items[1..], depth, fmt)
  }

  function KeyText(name: string, depth: nat, fmt: bool): string {
    (if fmt then Tabs(depth) else "") + Quote(name) + (if fmt then ":\t" else ":")
  }

  // One member of an object without what separates it from the next.
  function MemberText(m: Member, depth: nat, fmt: bool): string
    requires Plain(m.value)
    decreases m, 2
  {
    KeyText(m.name, depth, fmt) + Text(m.value, depth, fmt)
  }

  function MemberEnd(last: bool, fmt: bool): string {
    (if last then "" else ",") + (if fmt then "\n" else "")
  }

  // The members of an object, each on its line when formatting.
  function MembersText(members: seq<Member>, depth: nat, fmt: bool): string
    requires PlainMembers(members)
    decreases members, 0
  {
    if members == [] then []
    else
      MemberText(members[0], depth, fmt)
      + MemberEnd(|members| == 1, fmt)
      + MembersText(members[1..], depth, fmt)
  }
}
