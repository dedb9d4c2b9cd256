/** String operations of the Java and JavaScript standard libraries that the code relies on. */
module Texto {

  import opened Wrappers

  /** Java `String.trim()` strips every code point up to U+0020. */
  predicate EsBlancoJava(c: char)
  {
    c <= ' '
  }

  /** ECMAScript WhiteSpace and LineTerminator code points, which `String.prototype.trim()` strips. */
  predicate EsBlancoJs(c: char)
  {
    c == '\t' || c == '\U{000B}' || c == '\U{000C}' || c == ' ' || c == '\U{00A0}' || c == '\U{FEFF}'
    || c == '\U{1680}' || ('\U{2000}' <= c <= '\U{200A}') || c == '\U{202F}' || c == '\U{205F}'
    || c == '\U{3000}' || c == '\n' || c == '\r' || c == '\U{2028}' || c == '\U{2029}'
  }

  /** Drops the leading characters that satisfy `blanco`. */
  function RecortarInicio(s: string, blanco: char -> bool): (r: string)
    ensures |r| <= |s| && r == s[|s| - |r|..]
    ensures forall k :: 0 <= k < |s| - |r| ==> blanco(s[k])
    ensures r != [] ==> !blanco(r[0])
  {
    if s != [] && blanco(s[0]) then RecortarInicio(s[1..], blanco) else s
  }

  /** Drops the trailing characters that satisfy `blanco`. */
  function RecortarFin(s: string, blanco: char -> bool): (r: string)
    ensures |r| <= |s| && r == s[..|r|]
    ensures forall k :: |r| <= k < |s| ==> blanco(s[k])
    ensures r != [] ==> !blanco(r[|r| - 1])
  {
    if s != [] && blanco(s[|s| - 1]) then RecortarFin(s[..|s| - 1], blanco) else s
  }

  /** `trim()`, for the blank characters of the language at hand. */
  function Recortar(s: string, blanco: char -> bool): string
  {
    RecortarFin(RecortarInicio(s, blanco), blanco)
  }

  /** A string trims to nothing exactly when all of it is blank. */
  lemma RecortarVacio(s: string, blanco: char -> bool)
    ensures Recortar(s, blanco) == [] <==> forall k :: 0 <= k < |s| ==> blanco(s[k])
  {
  }

  /** Java `s == null || s.trim().isEmpty()`. */
  predicate EsNuloOVacio(s: Option<string>)
  {
    s.None? || Recortar(s.value, EsBlancoJava) == []
  }

  /** Java `String.contains` and JavaScript `String.prototype.includes`. */
  predicate Contiene(texto: string, parte: string)
  {
    parte <= texto || (texto != [] && Contiene(texto[1..], parte))
  }

  /** A single character occurs in the text exactly when the one-character string is contained in it. */
  lemma {:induction false} ContieneCaracter(texto: string, c: char)
    ensures Contiene(texto, [c]) <==> c in texto
  {
    if texto != [] {
      ContieneCaracter(texto[1..], c);
      assert texto == [texto[0]] + texto[1..];
    }
  }

  /** Java `String.length()` and JavaScript `.length`: UTF-16 code units, two for a supplementary character. */
  function LongitudUtf16(s: string): (n: nat)
    ensures |s| <= n <= 2 * |s|
    ensures (forall k :: 0 <= k < |s| ==> s[k] <= '\U{FFFF}') ==> n == |s|
  {
    if s == [] then 0 else LongitudUtf16(s[..|s| - 1]) + (if s[|s| - 1] <= '\U{FFFF}' then 1 else 2)
  }

  /** The code unit of decimal digit `d`. */
  function Digito(d: int): (c: char)
    requires 0 <= d <= 9
    ensures '0' <= c <= '9'
  {
    ('0' as int + d) as char
  }

  /** Decimal digits of a natural number, most significant first. */
  function Decimal(n: nat): (r: string)
    ensures |r| >= 1
  {
    if n < 10 then [Digito(n)] else Decimal(n / 10) + [Digito(n % 10)]
  }

  /** `String(n)` for an integer. */
  function EnteroATexto(n: int): string
  {
    if n < 0 then "-" + Decimal(-n) else Decimal(n)
  }

  /** `String(n).padStart(2, '0')`. */
  function Pad2(n: int): string
  {
    var s := EnteroATexto(n);
    if |s| < 2 then "0" + s else s
  }

  /** A value of a clock or calendar field is written with exactly its two decimal digits. */
  lemma Pad2Digitos(n: int)
    requires 0 <= n < 100
    ensures Pad2(n) == [Digito(n / 10), Digito(n % 10)]
  {
    if n >= 10 {
      assert Decimal(n / 10) == [Digito(n / 10)];
    }
  }

  /** JavaScript `a < b` on strings: code-unit lexicographic order, a proper prefix first. */
  predicate MenorLex(a: string, b: string)
  {
    if a == [] then b != []
    else if b == [] then false
    else if a[0] != b[0] then a[0] < b[0]
    else MenorLex(a[1..], b[1..])
  }
}
