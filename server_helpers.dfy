/**
 * The pure helpers of the HTTP server's entry point (index.js): the ANSI
 * colouring of the request log's method and status columns, and the
 * mapping of a store error to the HTTP response the last error handler
 * sends.
 */
module ServerHelpers {
  import opened Wrappers

  const Esc: char := '\U{1b}'

  /** `ESC[<code>m` + value + `ESC[0m`: the value between the colour switch and the reset. */
  function Colorize(code: string, value: string): (r: string)
    ensures |r| == |code| + |value| + 7
    ensures r[..2] == [Esc, '['] && r[2..2 + |code|] == code && r[2 + |code|] == 'm'
    ensures r[3 + |code|..|r| - 4] == value
    ensures r[|r| - 4..] == [Esc, '[', '0', 'm']
  {
    [Esc, '['] + code + ['m'] + value + [Esc, '[', '0', 'm']
  }

  predicate IsDigit(c: char) { '0' <= c <= '9' }

  /**
   * Splits a coloured string back into its two-digit colour code and its
   * text; `None` when the string is not of that shape.
   */
  function Uncolor(s: string): (r: Option<(string, string)>)
    ensures r.Some? ==> |r.value.0| == 2 && Colorize(r.value.0, r.value.1) == s
  {
    if |s| >= 9 && s[0] == Esc && s[1] == '[' && IsDigit(s[2]) && IsDigit(s[3]) && s[4] == 'm'
       && s[|s| - 4..] == [Esc, '[', '0', 'm']
    then
      assert s == [Esc, '['] + s[2..4] + ['m'] + s[5..|s| - 4] + [Esc, '[', '0', 'm'];
      Some((s[2..4], s[5..|s| - 4]))
    else None
  }

  /** Colouring with a two-digit code can always be undone. */
  lemma UncolorColorize(code: string, value: string)
    requires |code| == 2 && IsDigit(code[0]) && IsDigit(code[1])
    ensures Uncolor(Colorize(code, value)) == Some((code, value))
  {
    var s := Colorize(code, value);
    assert s[2..4] == code;
    assert s[5..|s| - 4] == value;
    assert s[|s| - 4..] == [Esc, '[', '0', 'm'];
  }

  /** The colour of each request method in the console log; the others stay plain. */
  function MethodColor(verb: string): (r: Option<string>)
    ensures r.Some? <==> verb in {"GET", "POST", "PUT", "DELETE"}
    ensures verb == "GET" ==> r == Some("32")
    ensures verb == "POST" ==> r == Some("34")
    ensures verb == "PUT" ==> r == Some("33")
    ensures verb == "DELETE" ==> r == Some("31")
  {
    if verb == "GET" then Some("32")          // green
    else if verb == "POST" then Some("34")    // blue
    else if verb == "PUT" then Some("33")     // yellow
    else if verb == "DELETE" then Some("31")  // red
    else None
  }

  /** The method column: one of the four coloured methods can be read back, with its colour; any other is left as it is. */
  function ColorizeMethod(verb: string): (r: string)
    ensures MethodColor(verb).None? ==> r == verb
    ensures MethodColor(verb).Some? ==> Uncolor(r) == Some((MethodColor(verb).value, verb))
  {
    match MethodColor(verb)
    case Some(code) =>
      UncolorColorize(code, verb);
      Colorize(code, verb)
    case None => verb
  }

  /** The four coloured methods get four different colours. */
  lemma MethodColorsDistinct(m1: string, m2: string)
    requires MethodColor(m1).Some? && MethodColor(m2).Some? && m1 != m2
    ensures MethodColor(m1) != MethodColor(m2)
  {
  }

  /** The decimal digits of a number, as JavaScript writes an integer in a string. */
  function DecimalString(n: nat): (r: string)
    ensures |r| >= 1
    ensures forall i :: 0 <= i < |r| ==> IsDigit(r[i])
    ensures n >= 10 ==> r[0] != '0'
  {
    if n < 10 then [DigitChar(n)] else DecimalString(n / 10) + [DigitChar(n % 10)]
  }

  function DigitChar(d: nat): (c: char)
    requires d < 10
    ensures IsDigit(c) && c as int - '0' as int == d
  {
    ('0' as int + d) as char
  }

  /** Reads a string of decimal digits back as a number. */
  function ParseDecimal(s: string): (r: Option<nat>)
    ensures r.Some? ==> |s| >= 1
  {
    if |s| == 0 then None
    else if !IsDigit(s[|s| - 1]) then None
    else
      var last := s[|s| - 1] as int - '0' as int;
      if |s| == 1 then Some(last)
      else
        match ParseDecimal(s[..|s| - 1])
        case Some(high) => Some(high * 10 + last)
        case None => None
  }

  lemma {:induction false} ParseDecimalString(n: nat)
    ensures ParseDecimal(DecimalString(n)) == Some(n)
  {
    var s := DecimalString(n);
    if n >= 10 {
      assert s[..|s| - 1] == DecimalString(n / 10);
      ParseDecimalString(n / 10);
    }
  }

  /** Printing status codes never merges two of them. */
  lemma DecimalStringInjective(m: nat, n: nat)
    requires DecimalString(m) == DecimalString(n)
    ensures m == n
  {
    ParseDecimalString(m);
    ParseDecimalString(n);
  }

  /** The status column: coloured text for 2xx and up, the bare number below 200. */
  datatype StatusCell = Colored(text: string) | Plain(status: int)

  /** The colour of each status band: 5xx red, 4xx yellow, 3xx cyan, 2xx green. */
  function StatusColor(status: nat): (r: Option<string>)
    ensures r.Some? <==> status >= 200
    ensures status >= 500 ==> r == Some("31")
    ensures 400 <= status < 500 ==> r == Some("33")
    ensures 300 <= status < 400 ==> r == Some("36")
    ensures 200 <= status < 300 ==> r == Some("32")
  {
    if status >= 500 then Some("31")
    else if status >= 400 then Some("33")
    else if status >= 300 then Some("36")
    else if status >= 200 then Some("32")
    else None
  }

  /**
   * The status column: below 200 the bare number; from 200 on, a coloured
   * cell that reads back as its band's colour and the status in decimal.
   */
  function ColorizeStatus(status: nat): (r: StatusCell)
    ensures status < 200 ==> r == Plain(status)
    ensures status >= 200 ==>
              && r.Colored?
              && var u := Uncolor(r.text);
                 && u.Some? && Some(u.value.0) == StatusColor(status)
                 && u.value.1 == DecimalString(status) && ParseDecimal(u.value.1) == Some(status)
  {
    match StatusColor(status)
    case Some(code) =>
      UncolorColorize(code, DecimalString(status));
      ParseDecimalString(status);
      Colored(Colorize(code, DecimalString(status)))
    case None => Plain(status)
  }

  /** The message body of an error response, by meaning. */
  datatype ErrorMessage = DataAlreadyExists | DataNotFound | SomethingWentWrong

  /** An error response: the status, its message, and the error's own text in development only. */
  datatype ErrorResponse = ErrorResponse(status: nat, message: ErrorMessage, detail: Option<string>)

  /**
   * The last error handler. A unique-constraint failure (P2002) is a
   * conflict, a missing record (P2025) is not found, and every other
   * error, with a code or without one, is an internal error.
   */
  function HandleError(code: Option<string>, errorMessage: string, development: bool): (r: ErrorResponse)
    ensures r.status in {409, 404, 500}
    ensures r.status == 409 <==> code == Some("P2002")
    ensures r.status == 404 <==> code == Some("P2025")
    ensures r.status == 409 ==> r.message == DataAlreadyExists
    ensures r.status == 404 ==> r.message == DataNotFound
    ensures r.status == 500 ==> r.message == SomethingWentWrong
    ensures r.detail == (if development then Some(errorMessage) else None)
  {
    var detail := if development then Some(errorMessage) else None;
    if code.Some? && code.value != "" then
      if code.value == "P2002" then ErrorResponse(409, DataAlreadyExists, detail)
      else if code.value == "P2025" then ErrorResponse(404, DataNotFound, detail)
      else ErrorResponse(500, SomethingWentWrong, detail)
    else ErrorResponse(500, SomethingWentWrong, detail)
  }
}
