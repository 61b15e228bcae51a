/** The text rewrite `botao_copiar` applies before embedding a result in a
    JavaScript template literal (`` `...` ``): backslash, backtick and
    newline are escaped and carriage returns are dropped, by four chained
    `str.replace` calls. */
module Escaping {
  import opened Wrappers

  /** `s.replace(c, rep)` for a one-character pattern: every occurrence of
      `c`, scanned left to right, is replaced by `rep`. */
  function ReplaceChar(s: string, c: char, rep: string): (r: string)
    ensures forall x :: x in r ==> (x in s && x != c) || x in rep
    ensures forall x :: x in s && x != c ==> x in r
  {
    if s == [] then []
    else (if s[0] == c then rep else [s[0]]) + ReplaceChar(s[1..], c, rep)
  }

  /** Replacing in a concatenation replaces in each part. */
  lemma {:induction false} ReplaceAppend(a: string, b: string, c: char, rep: string)
    ensures ReplaceChar(a + b, c, rep) == ReplaceChar(a, c, rep) + ReplaceChar(b, c, rep)
  {
    if a != [] {
      var head := if a[0] == c then rep else [a[0]];
      assert (a + b)[0] == a[0];
      assert (a + b)[1..] == a[1..] + b;
      ReplaceAppend(a[1..], b, c, rep);
      calc {
        ReplaceChar(a + b, c, rep);
        head + ReplaceChar(a[1..] + b, c, rep);
        head + (ReplaceChar(a[1..], c, rep) + ReplaceChar(b, c, rep));
        (head + ReplaceChar(a[1..], c, rep)) + ReplaceChar(b, c, rep);
      }
    } else {
      assert a + b == b;
    }
  }

  /** The four `str.replace` calls of `botao_copiar`, in the order the
      source applies them: backslash first, then backtick, newline and
      carriage return. */
  function ReplaceChain(texto: string): string {
    var s1 := ReplaceChar(texto, '\\', "\\\\");
    var s2 := ReplaceChar(s1, '`', "\\`");
    var s3 := ReplaceChar(s2, '\n', "\\n");
    ReplaceChar(s3, '\r', "")
  }

  /** What one input character becomes in the output. */
  function EscapeChar(ch: char): string {
    if ch == '\\' then "\\\\"
    else if ch == '`' then "\\`"
    else if ch == '\n' then "\\n"
    else if ch == '\r' then ""
    else [ch]
  }

  /** A single left-to-right pass escaping each character on its own. */
  function EscapeEach(s: string): string {
    if s == [] then [] else EscapeChar(s[0]) + EscapeEach(s[1..])
  }

  /** The chain of replacements equals the single pass: because backslashes
      are doubled first, no later step matches a character that an earlier
      step inserted, so nothing is escaped twice. */
  lemma {:induction false} ReplaceChainIsEscapeEach(s: string)
    ensures ReplaceChain(s) == EscapeEach(s)
  {
    if s != [] {
      var c, rest := s[0], s[1..];
      var e1, r1 := ReplaceChar([c], '\\', "\\\\"), ReplaceChar(rest, '\\', "\\\\");
      assert s == [c] + rest;
      ReplaceAppend([c], rest, '\\', "\\\\");
      ReplaceAppend(e1, r1, '`', "\\`");
      var e2, r2 := ReplaceChar(e1, '`', "\\`"), ReplaceChar(r1, '`', "\\`");
      ReplaceAppend(e2, r2, '\n', "\\n");
      var e3, r3 := ReplaceChar(e2, '\n', "\\n"), ReplaceChar(r2, '\n', "\\n");
      ReplaceAppend(e3, r3, '\r', "");
      var e4 := ReplaceChar(e3, '\r', "");
      assert e4 == EscapeChar(c) by {
        SingleCharChain(c);
      }
      ReplaceChainIsEscapeEach(rest);
    }
  }

  /** `safe_text` of `botao_copiar`: the chain of replacements, which
      escapes every character exactly once. */
  function SafeText(texto: string): (r: string)
    ensures r == EscapeEach(texto)
  {
    ReplaceChainIsEscapeEach(texto);
    ReplaceChain(texto)
  }

  lemma SingleCharChain(c: char)
    ensures ReplaceChar(ReplaceChar(ReplaceChar(ReplaceChar([c], '\\', "\\\\"), '`', "\\`"), '\n', "\\n"), '\r', "")
            == EscapeChar(c)
  {
    var e1 := ReplaceChar([c], '\\', "\\\\");
    if c == '\\' {
      assert e1 == "\\\\";
      assert ReplaceChar(e1, '`', "\\`") == "\\\\";
      assert ReplaceChar("\\\\", '\n', "\\n") == "\\\\";
      assert ReplaceChar("\\\\", '\r', "") == "\\\\";
    } else if c == '`' {
      assert ReplaceChar("`", '`', "\\`") == "\\`";
      assert ReplaceChar("\\`", '\n', "\\n") == "\\`";
      assert ReplaceChar("\\`", '\r', "") == "\\`";
    } else if c == '\n' {
      assert ReplaceChar("\n", '\n', "\\n") == "\\n";
      assert ReplaceChar("\\n", '\r', "") == "\\n";
    }
  }

  /** `s` without its carriage returns. */
  function RemoveCR(s: string): (r: string)
    ensures '\r' !in r
    ensures forall x :: x != '\r' ==> (x in r <==> x in s)
  {
    if s == [] then [] else (if s[0] == '\r' then [] else [s[0]]) + RemoveCR(s[1..])
  }

  /** Text without carriage returns loses nothing to the chain. */
  lemma {:induction false} RemoveCRWithoutCR(s: string)
    requires '\r' !in s
    ensures RemoveCR(s) == s
  {
    if s != [] {
      assert s[0] != '\r';
      RemoveCRWithoutCR(s[1..]);
      assert s == [s[0]] + s[1..];
    }
  }

  /** How a JavaScript template literal reads the escapes the chain writes:
      `\\`, `` \` `` and `\n` stand for backslash, backtick and newline. */
  function Unescape(t: string): string {
    if |t| >= 2 && t[0] == '\\' then
      (if t[1] == 'n' then ['\n'] else [t[1]]) + Unescape(t[2..])
    else if t == [] then []
    else [t[0]] + Unescape(t[1..])
  }

  /** The text a template literal body is read as, token by token: plain
      characters other than backslash, backtick, newline and carriage return,
      or a backslash followed by a backslash, a backtick or `n`. Such a body
      holds no backtick that would end the literal early. */
  predicate WellEscaped(t: string) {
    if t == [] then true
    else if t[0] == '\\' then
      |t| >= 2 && (t[1] == '\\' || t[1] == '`' || t[1] == 'n') && WellEscaped(t[2..])
    else
      t[0] != '`' && t[0] != '\n' && t[0] != '\r' && WellEscaped(t[1..])
  }

  lemma {:induction false} EscapeEachAppend(a: string, b: string)
    ensures EscapeEach(a + b) == EscapeEach(a) + EscapeEach(b)
  {
    if a != [] {
      assert (a + b)[0] == a[0];
      assert (a + b)[1..] == a[1..] + b;
      EscapeEachAppend(a[1..], b);
      calc {
        EscapeEach(a + b);
        EscapeChar(a[0]) + EscapeEach(a[1..] + b);
        EscapeChar(a[0]) + (EscapeEach(a[1..]) + EscapeEach(b));
        (EscapeChar(a[0]) + EscapeEach(a[1..])) + EscapeEach(b);
      }
    } else {
      assert a + b == b;
    }
  }

  /** The output of the chain is well escaped. */
  lemma {:induction false} SafeTextWellEscaped(s: string)
    ensures WellEscaped(SafeText(s))
  {
    EscapeEachWellEscaped(s);
  }

  lemma {:induction false} EscapeEachWellEscaped(s: string)
    ensures WellEscaped(EscapeEach(s))
  {
    if s != [] {
      EscapeEachWellEscaped(s[1..]);
      var c, rest := s[0], EscapeEach(s[1..]);
      if c == '\\' || c == '`' || c == '\n' {
        assert (EscapeChar(c) + rest)[2..] == rest;
      } else if c != '\r' {
        assert ([c] + rest)[1..] == rest;
      } else {
        assert EscapeChar(c) + rest == rest;
      }
    }
  }

  /** Reading the output back recovers the input without its carriage
      returns. */
  lemma {:induction false} UnescapeSafeText(s: string)
    ensures Unescape(SafeText(s)) == RemoveCR(s)
  {
    UnescapeEscapeEach(s);
  }

  lemma {:induction false} UnescapeEscapeEach(s: string)
    ensures Unescape(EscapeEach(s)) == RemoveCR(s)
  {
    if s != [] {
      UnescapeEscapeEach(s[1..]);
      var c, rest := s[0], EscapeEach(s[1..]);
      if c == '\\' || c == '`' || c == '\n' {
        assert (EscapeChar(c) + rest)[2..] == rest;
      } else if c != '\r' {
        assert ([c] + rest)[1..] == rest;
      } else {
        assert EscapeChar(c) + rest == rest;
      }
    }
  }

  /** In well-escaped text every backtick comes right after a backslash, and
      no newline or carriage return remains. */
  lemma {:induction false} WellEscapedShape(t: string)
    requires WellEscaped(t)
    ensures '\n' !in t && '\r' !in t
    ensures forall i :: 0 <= i < |t| && t[i] == '`' ==> i > 0 && t[i - 1] == '\\'
  {
    if t != [] {
      var k := if t[0] == '\\' then 2 else 1;
      WellEscapedShape(t[k..]);
      assert t == t[..k] + t[k..];
      forall i | 0 <= i < |t| && t[i] == '`'
        ensures i > 0 && t[i - 1] == '\\'
      {
        if i >= k {
          assert t[k..][i - k] == '`';
        }
      }
    }
  }

  /** `botao_copiar(texto)`: nothing is rendered for empty text; otherwise
      the button carries the escaped text. */
  function CopyPayload(texto: string): (r: Option<string>)
    ensures r.None? <==> texto == []
    ensures r.Some? ==> WellEscaped(r.value) && Unescape(r.value) == RemoveCR(texto)
    ensures r.Some? && '\r' !in texto ==> Unescape(r.value) == texto
  {
    if texto == [] then None
    else
      SafeTextReadBack(texto);
      Some(SafeText(texto))
  }

  /** The escaped text is well formed and reads back as the input without
      its carriage returns, which is the input itself when it has none. */
  lemma SafeTextReadBack(texto: string)
    ensures WellEscaped(SafeText(texto))
    ensures Unescape(SafeText(texto)) == RemoveCR(texto)
    ensures '\r' !in texto ==> Unescape(SafeText(texto)) == texto
  {
    SafeTextWellEscaped(texto);
    UnescapeSafeText(texto);
    if '\r' !in texto {
      RemoveCRWithoutCR(texto);
    }
  }
}
