/** The line scanner as functions from a position in a line to the next token. */
module LexicalRules {
  import opened Ast
  import opened Tokens
  import B = BaseConversion

  /** What Unicode says about characters and names. Names are NFC-normalised identifiers. */
  datatype Unicode = Unicode(starts: char -> bool, continues: char -> bool, isAlnum: char -> bool,
                             isName: string -> bool)

  /** A character that can start a name can also continue it. */
  ghost predicate Sensible(u: Unicode) {
    forall c :: u.starts(c) ==> u.continues(c)
  }

  /** A token and the index of its first character. */
  datatype Spanned = Spanned(token: Token, start: nat)

  /** One step over a line: blanks, the comment that ends it, or a token. */
  datatype Piece = Blank | Comment | Lexeme(token: Token)

  function SpanLength(t: Token): nat {
    if t.kind == TAG then |t.lexeme| + 1 else |t.lexeme|
  }

  // ---- Names and tags ----

  function NameEnd(text: string, i: nat, u: Unicode): (end: nat)
    requires i <= |text|
    ensures i <= end <= |text| && forall k | i <= k < end :: u.continues(text[k])
    ensures i < |text| && u.continues(text[i]) ==> i < end
    decreases |text| - i
  {
    if i < |text| && u.continues(text[i]) then NameEnd(text, i + 1, u) else i
  }

  function TagEnd(text: string, i: nat, u: Unicode): (end: Result<nat>)
    requires i < |text|
    ensures end.Ok? ==> i <= end.value <= |text|
    decreases |text| - i
  {
    var e := NameEnd(text, i, u);
    if e >= |text| || text[e] != ':' then Ok(e)
    else if e + 1 >= |text| || !u.starts(text[e + 1]) then Err("E216")
    else TagEnd(text, e + 1, u)
  }

  /** The segments between colons. */
  predicate AreNames(name: string, u: Unicode)
    decreases |name|
  {
    var colon := ColonAt(name, 0);
    if colon == |name| then u.isName(name) else u.isName(name[..colon]) && AreNames(name[colon + 1..], u)
  }

  function ColonAt(s: string, i: nat): (k: nat)
    requires i <= |s|
    ensures i <= k <= |s|
    decreases |s| - i
  {
    if i == |s| || s[i] == ':' then i else ColonAt(s, i + 1)
  }

  function Plain(kind: Kind, lexeme: string, line: nat): Token { Token(kind, lexeme, EmptyLit, line) }

  function ScanTag(text: string, i: nat, u: Unicode, line: nat): Result<Piece>
    requires i < |text|
  {
    if i + 1 >= |text| || !u.starts(text[i + 1]) then Err("E216")
    else
      var end := TagEnd(text, i + 1, u);
      if end.Err? then Err(end.code)
      else
        var name := text[i + 1..end.value];
        if AreNames(name, u) then Ok(Lexeme(Plain(TAG, name, line))) else Err("E216")
  }

  /** The keywords. */
  function WordKind(word: string): (kind: Kind)
    ensures SEP <= kind <= BACK || kind == IDENTIFIER
    ensures (kind == IN ==> word == "in") && (kind == NOT ==> word == "not")
    ensures (kind == FRONT ==> word == "front") && (kind == BACK ==> word == "back")
  {
    if word == "SEP" then SEP
    else if word == "END_SEP" then END_SEP
    else if word == "EMPTY" then EMPTY
    else if word == "EMPTYS" then EMPTYS
    else if word == "if" then IF
    else if word == "elseif" then ELSEIF
    else if word == "else" then ELSE
    else if word == "endif" then ENDIF
    else if word == "while" then WHILE
    else if word == "endwhile" then ENDWHILE
    else if word == "for" then FOR
    else if word == "in" then IN
    else if word == "endfor" then ENDFOR
    else if word == "print" then PRINT
    else if word == "return" then RETURN
    else if word == "print_error" then PRINT_ERROR
    else if word == "const" then CONST
    else if word == "not" then NOT
    else if word == "is" then IS
    else if word == "object" then OBJECT
    else if word == "end_object" then END_OBJECT
    else if word == "list" then LIST
    else if word == "end_list" then END_LIST
    else if word == "import" then IMPORT
    else if word == "as" then AS
    else if word == "try" then TRY
    else if word == "catch" then CATCH
    else if word == "finally" then FINALLY
    else if word == "endtry" then ENDTRY
    else if word == "throw" then THROW
    else if word == "error" then ERROR
    else if word == "end_error" then END_ERROR
    else if word == "http_route" then HTTP_ROUTE
    else if word == "end_http_route" then END_HTTP_ROUTE
    else if word == "transaction" then TRANSACTION
    else if word == "end_transaction" then END_TRANSACTION
    else if word == "true" then TRUE
    else if word == "false" then FALSE
    else if word == "front" then FRONT
    else if word == "back" then BACK
    else IDENTIFIER
  }

  /** Keywords are looked up as they are, then in lower case. */
  function KeywordKind(word: string): Kind {
    if WordKind(word) != IDENTIFIER then WordKind(word) else WordKind(Lower(word))
  }

  predicate IsAscii(s: string) { forall c | c in s :: c < '\U{80}' }

  function ScanName(text: string, i: nat, afterColon: bool, u: Unicode, line: nat): Result<Piece>
    requires i < |text|
  {
    var name := text[i..NameEnd(text, i, u)];
    if name in {"null", "NULL"} then Err("E135")
    else if !IsAscii(name) then
      if !afterColon then Err("E101") else if !u.isName(name) then Err("E102") else Ok(Lexeme(Plain(LABEL, name, line)))
    else
      var kind := KeywordKind(name);
      Ok(Lexeme(Token(kind, name, if kind == TRUE then BoolLit(true) else if kind == FALSE then BoolLit(false)
                      else EmptyLit,
                      line)))
  }

  // ---- Numbers ----

  predicate IsDecimal(c: char) { '0' <= c <= '9' }

  function DigitsEnd(text: string, i: nat): (end: nat)
    requires i <= |text|
    ensures i <= end <= |text|
    decreases |text| - i
  {
    if i < |text| && (IsDecimal(text[i]) || text[i] == '_') then DigitsEnd(text, i + 1) else i
  }

  function BasedEnd(text: string, i: nat, u: Unicode): (end: nat)
    requires i <= |text|
    ensures i <= end <= |text|
    decreases |text| - i
  {
    if i < |text| && (u.isAlnum(text[i]) || text[i] in {'_', '.'}) then BasedEnd(text, i + 1, u) else i
  }

  function PrefixBase(c: char): Option<int> {
    if c in {'b', 'B'} then Some(2) else if c in {'o', 'O'} then Some(8) else if c in {'x', 'X'} then Some(16) else None
  }

  /** Digits with underscores between them. */
  predicate AreDigits(s: string, base: int) {
    B.IsSpaced(s) && forall c | c in s :: c == '_' || B.IsDigitOf(B.LowerDigit(c), base)
  }

  lemma {:induction false} NormalizedDigits(s: string, base: int)
    requires forall c | c in s :: c == '_' || B.IsDigitOf(B.LowerDigit(c), base)
    ensures B.AreDigits(B.Normalized(s), base)
  {
    if s != "" {
      assert s[0] in s;
      assert forall c | c in s[1..] :: c in s;
      NormalizedDigits(s[1..], base);
    }
  }

  function NumberValue(s: string, base: int): nat
    requires B.IsBase(base) && AreDigits(s, base)
  {
    NormalizedDigits(s, base);
    B.ValueOf(B.Normalized(s), base)
  }

  function ScanNumber(text: string, i: nat, u: Unicode, line: nat): Result<Piece>
    requires i < |text| && IsDecimal(text[i])
  {
    if text[i] == '0' && i + 1 < |text| && PrefixBase(text[i + 1]).Some? then
      var base := PrefixBase(text[i + 1]).value;
      var end := BasedEnd(text, i + 2, u);
      var digits := text[i + 2..end];
      if !AreDigits(digits, base) then Err("E101")
      else Ok(Lexeme(Token(NUMBER, text[i..end], IntLit(NumberValue(digits, base)), line)))
    else
      var e := DigitsEnd(text, i);
      var integer := text[i..e];
      if e < |text| && text[e] == '.' then
        var end := DigitsEnd(text, e + 1);
        if !AreDigits(integer, 10) || !AreDigits(text[e + 1..end], 10) then Err("E101")
        else Ok(Lexeme(Token(NUMBER, text[i..end], FloatLit(WithoutUnderscores(text[i..end])), line)))
      else if !AreDigits(integer, 10) then Err("E101")
      else Ok(Lexeme(Token(NUMBER, integer, IntLit(NumberValue(integer, 10)), line)))
  }

  function WithoutUnderscores(s: string): string {
    if s == "" then "" else (if s[0] == '_' then "" else [s[0]]) + WithoutUnderscores(s[1..])
  }

  // ---- Strings ----

  function ShortEscape(marker: char): Option<char> {
    if marker == 'n' then Some('\n')
    else if marker == 'r' then Some('\r')
    else if marker == 't' then Some('\t')
    else if marker == '0' then Some('\0')
    else if marker == '"' then Some('"')
    else if marker == '\\' then Some('\\')
    else None
  }

  predicate IsHex(c: char) { '0' <= c <= '9' || 'a' <= c <= 'f' || 'A' <= c <= 'F' }

  function HexDigit(c: char): (v: nat)
    requires IsHex(c)
    ensures v < 16
  {
    if '0' <= c <= '9' then c as int - '0' as int
    else if 'a' <= c <= 'f' then c as int - 'a' as int + 10
    else c as int - 'A' as int + 10
  }

  function HexValue(s: string): nat
    requires forall c | c in s :: IsHex(c)
  {
    if s == "" then 0
    else
      assert s[|s| - 1] in s;
      HexValue(s[..|s| - 1]) * 16 + HexDigit(s[|s| - 1])
  }

  predicate IsScalar(code: int) { 0 <= code < 0xD800 || 0xE000 <= code <= 0x10FFFF }

  /** A backslash at `i`: the character it stands for, and where the next one begins. */
  function Escape(text: string, i: nat): (r: Result<(char, nat)>)
    requires i < |text|
    ensures r.Ok? ==> i + 2 <= r.value.1 <= |text|
  {
    if i + 1 >= |text| then Err("E219")
    else
      var marker := text[i + 1];
      if marker in {'u', 'U'} then
        var end := i + 2 + if marker == 'u' then 4 else 8;
        if end > |text| then Err("E220")
        else
          var digits := text[i + 2..end];
          if exists c | c in digits :: !IsHex(c) then Err("E220")
          else
            var code := HexValue(digits);
            if IsScalar(code) then Ok((code as char, end)) else Err("E220")
      else if ShortEscape(marker).Some? then Ok((ShortEscape(marker).value, i + 2))
      else Err("E219")
  }

  /** The characters of a string literal from `i` to its closing quote, and where that stands. */
  function StringFrom(text: string, i: nat, raw: bool): (r: Result<(string, nat)>)
    requires i <= |text|
    ensures r.Ok? ==> i <= r.value.1 < |text| && text[r.value.1] == '"'
    decreases |text| - i
  {
    if i == |text| then Err("E103")
    else if text[i] == '"' then Ok(("", i))
    else if text[i] == '\\' && !raw then
      var escape := Escape(text, i);
      if escape.Err? then Err(escape.code)
      else
        var more := StringFrom(text, escape.value.1, raw);
        if more.Err? then more else Ok(([escape.value.0] + more.value.0, more.value.1))
    else
      var more := StringFrom(text, i + 1, raw);
      if more.Err? then more else Ok(([text[i]] + more.value.0, more.value.1))
  }

  function ScanString(text: string, i: nat, line: nat): Result<Piece>
    requires i < |text| && (text[i] == '"' || (text[i] == 'r' && i + 1 < |text| && text[i + 1] == '"'))
  {
    var raw := text[i] == 'r';
    var chars := StringFrom(text, if raw then i + 2 else i + 1, raw);
    if chars.Err? then Err(chars.code)
    else Ok(Lexeme(Token(STRING, text[i..chars.value.1 + 1], StringLit(chars.value.0), line)))
  }

  // ---- Operators ----

  function TripleKind(s: string): (r: Option<Kind>)
    ensures r.Some? ==> IsOperator(r.value) && Spelling(r.value) == Some(s)
  {
    if s == "//=" then Some(FLOOR_DIV_EQUAL) else if s == "**=" then Some(POWER_EQUAL) else None
  }

  function PairKind(s: string): (r: Option<Kind>)
    ensures r.Some? ==> IsOperator(r.value) && Spelling(r.value) == Some(s)
  {
    if s == "==" then Some(EQUAL_EQUAL)
    else if s == "!=" then Some(BANG_EQUAL)
    else if s == ">=" then Some(GREATER_EQUAL)
    else if s == "<=" then Some(LESS_EQUAL)
    else if s == "&&" then Some(AND)
    else if s == "||" then Some(OR)
    else if s == "**" then Some(POWER)
    else if s == "//" then Some(FLOOR_DIV)
    else if s == "??" then Some(EMPTY_COALESCE)
    else if s == "+=" then Some(PLUS_EQUAL)
    else if s == "-=" then Some(MINUS_EQUAL)
    else if s == "*=" then Some(STAR_EQUAL)
    else if s == "/=" then Some(SLASH_EQUAL)
    else if s == "%=" then Some(PERCENT_EQUAL)
    else None
  }

  function SingleKind(c: char): (r: Option<Kind>)
    ensures r.Some? ==> IsOperator(r.value) && Spelling(r.value) == Some([c])
  {
    if c == '+' then Some(PLUS)
    else if c == '-' then Some(MINUS)
    else if c == '*' then Some(STAR)
    else if c == '/' then Some(SLASH)
    else if c == '%' then Some(PERCENT)
    else if c == '(' then Some(LPAREN)
    else if c == ')' then Some(RPAREN)
    else if c == '[' then Some(LBRACKET)
    else if c == ']' then Some(RBRACKET)
    else if c == ',' then Some(COMMA)
    else if c == ':' then Some(COLON)
    else if c == '.' then Some(DOT)
    else if c == '=' then Some(EQUAL)
    else if c == '!' then Some(BANG)
    else if c == '>' then Some(GREATER)
    else if c == '<' then Some(LESS)
    else None
  }

  /** The longest operator at `i`. */
  function OperatorAt(text: string, i: nat): (r: Option<(Kind, nat)>)
    requires i < |text|
    ensures r.Some? ==> i < r.value.1 <= |text|
  {
    if i + 3 <= |text| && TripleKind(text[i..i + 3]).Some? then Some((TripleKind(text[i..i + 3]).value, i + 3))
    else if i + 2 <= |text| && PairKind(text[i..i + 2]).Some? then Some((PairKind(text[i..i + 2]).value, i + 2))
    else if SingleKind(text[i]).Some? then Some((SingleKind(text[i]).value, i + 1))
    else None
  }

  // ---- Lines ----

  predicate IsBlank(c: char) { c in {' ', '\t', '\r'} }

  predicate StartsString(text: string, i: nat)
    requires i < |text|
  {
    text[i] == '"' || (text[i] == 'r' && i + 1 < |text| && text[i + 1] == '"')
  }

  function ScanOne(text: string, i: nat, afterColon: bool, u: Unicode, line: nat): Result<Piece>
    requires i < |text|
  {
    if IsBlank(text[i]) then Ok(Blank)
    else if text[i] == '#' then Ok(Comment)
    else if text[i] == '@' then ScanTag(text, i, u, line)
    else if OperatorAt(text, i).Some? then
      Ok(Lexeme(Plain(OperatorAt(text, i).value.0, text[i..OperatorAt(text, i).value.1], line)))
    else if StartsString(text, i) then ScanString(text, i, line)
    else if IsDecimal(text[i]) then ScanNumber(text, i, u, line)
    else if u.starts(text[i]) then ScanName(text, i, afterColon, u, line)
    else Err("E100")
  }

  /** What every token covers: exactly its lexeme, and for tags the `@` before it. */
  predicate Covers(text: string, i: nat, t: Token) {
    && SpanLength(t) > 0 && i + SpanLength(t) <= |text|
    && text[i..i + SpanLength(t)] == (if t.kind == TAG then "@" else "") + t.lexeme
  }
}
