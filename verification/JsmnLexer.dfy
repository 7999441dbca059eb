/**
  The lexical level of the jsmn tokenizer (external/jsmn/jsmn.c), in the
  configuration the repository compiles: non-strict, no parent links, growing
  token array.  What a character does to the scanner depends on the text alone,
  never on the bracket structure, so this level is a set of pure functions.
 */
module JsmnLexer {

  datatype TokenType = Primitive | Object | Array | String

  /** How a parse ends when it does not run out of memory. */
  datatype Status = Done | Invalid | Partial

  /** The text is readable up to and including a NUL at or after index `len`. */
  predicate Readable(js: string, len: nat) {
    len < |js| && js[|js| - 1] == '\0'
  }

  predicate Delimiter(c: char) {
    c == ':' || c == '\t' || c == '\r' || c == '\n' || c == ' ' || c == ',' || c == ']' || c == '}'
  }

  /** Bytes below 32 or above 126 are refused inside a primitive. */
  predicate Printable(c: char) {
    32 <= c as int < 127
  }

  predicate Hex(c: char) {
    '0' <= c <= '9' || 'A' <= c <= 'F' || 'a' <= c <= 'f'
  }

  predicate SimpleEscape(c: char) {
    c == '\"' || c == '/' || c == '\\' || c == 'b' || c == 'f' || c == 'r' || c == 'n' || c == 't'
  }

  /** Result of scanning one lexeme: where it ends, cut short by the end of the text, or ill-formed. */
  datatype Scan = Ends(at: nat) | Cut | Bad

  /** End of the primitive that runs through index `i`. */
  function ScanPrimitive(js: string, len: nat, i: nat): (r: Scan)
    requires Readable(js, len)
    ensures !r.Cut?
    ensures r.Ends? && i <= len ==> i <= r.at <= len
    decreases len - i
  {
    if i >= len || js[i] == '\0' || Delimiter(js[i]) then Ends(i)
    else if !Printable(js[i]) then Bad
    else ScanPrimitive(js, len, i + 1)
  }

  /** Skips at most `n` hexadecimal digits; a NUL stops the run early. */
  function SkipHex(js: string, i: nat, n: nat): (r: Scan)
    requires i < |js| && js[|js| - 1] == '\0'
    ensures !r.Cut?
    ensures r.Ends? ==> i <= r.at < |js|
    decreases n
  {
    if n == 0 || js[i] == '\0' then Ends(i)
    else if Hex(js[i]) then SkipHex(js, i + 1, n - 1)
    else Bad
  }

  /** Closing quote of the string whose body runs through index `i`. */
  function ScanString(js: string, len: nat, i: nat): (r: Scan)
    requires Readable(js, len)
    ensures r.Ends? ==> i <= r.at < len && js[r.at] == '\"'
    decreases |js| - i
  {
    if i >= len || js[i] == '\0' then Cut
    else if js[i] == '\"' then Ends(i)
    else if js[i] == '\\' then
      if SimpleEscape(js[i + 1]) then ScanString(js, len, i + 2)
      else if js[i + 1] == 'u' then
        var hex := SkipHex(js, i + 2, 4);
        if hex.Ends? then ScanString(js, len, hex.at) else Bad
      else Bad
    else ScanString(js, len, i + 1)
  }

  datatype Lexeme =
    | Open(kind: TokenType)
    | Close(kind: TokenType)
    | Scalar(kind: TokenType, start: nat, end: nat)
    | Blank

  datatype LexStep = Lexed(item: Lexeme, next: nat) | Stuck(why: Status)

  /** The lexeme at position `p`, and where the next one is looked for. */
  function Lex(js: string, len: nat, p: nat): (r: LexStep)
    requires Readable(js, len) && p < len && js[p] != '\0'
    ensures r.Lexed? ==> p < r.next <= len
    ensures r.Stuck? ==> r.why != Done
  {
    var c := js[p];
    if c == '{' then Lexed(Open(Object), p + 1)
    else if c == '[' then Lexed(Open(Array), p + 1)
    else if c == '}' then Lexed(Close(Object), p + 1)
    else if c == ']' then Lexed(Close(Array), p + 1)
    else if c == '\"' then
      match ScanString(js, len, p + 1)
      case Ends(e) => Lexed(Scalar(String, p + 1, e), e + 1)
      case Cut => Stuck(Partial)
      case Bad => Stuck(Invalid)
    else if c == '\t' || c == '\r' || c == '\n' || c == ':' || c == ',' || c == ' ' then
      Lexed(Blank, p + 1)
    else
      match ScanPrimitive(js, len, p)
      case Ends(e) => Lexed(Scalar(Primitive, p, e), e)
      case Bad => Stuck(Invalid)
  }
}
