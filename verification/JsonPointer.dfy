/** JSON Pointers as the fault laboratory writes them (`_pointer_component`), and RFC 6901 reading of them. */
module JsonPointer {
  import opened Decimals
  import opened Wrappers

  // ----- writing -----

  /** str.replace of one character. */
  function Replace(s: string, c: char, with: string): string {
    if s == "" then "" else (if s[0] == c then with else [s[0]]) + Replace(s[1..], c, with)
  }

  function Escape(token: string): string {
    Replace(Replace(token, '~', "~0"), '/', "~1")
  }

  /** The pointer of a path: each token behind a slash. */
  function Encode(path: seq<string>): string {
    if path == [] then "" else "/" + Escape(path[0]) + Encode(path[1..])
  }

  // ----- reading: sections 3 and 4 of RFC 6901 -----

  /** Replace "~" followed by `digit`, from left to right. */
  function Unpair(s: string, digit: char, with: char): string {
    if |s| < 2 then s
    else if s[0] == '~' && s[1] == digit then [with] + Unpair(s[2..], digit, with)
    else [s[0]] + Unpair(s[1..], digit, with)
  }

  /** "~1" first and "~0" second. */
  function Unescape(token: string): string {
    Unpair(Unpair(token, '1', '/'), '0', '~')
  }

  function NextSlash(s: string, from: nat): (n: nat)
    requires from <= |s|
    ensures from <= n <= |s| && (n < |s| ==> s[n] == '/')
    ensures forall i :: from <= i < n ==> s[i] != '/'
    decreases |s| - from
  {
    if from == |s| || s[from] == '/' then from else NextSlash(s, from + 1)
  }

  function Decode(pointer: string): Option<seq<string>> {
    if pointer == "" then Some([])
    else if pointer[0] != '/' then None
    else
      var n := NextSlash(pointer, 1);
      var rest := Decode(pointer[n..]);
      if rest.None? then None else Some([Unescape(pointer[1..n])] + rest.value)
  }

  /** An array index: digits without a leading zero. */
  function Index(token: string): Option<nat> {
    if token == "" || (|token| > 1 && token[0] == '0') || !IsDigits(token) then None else Some(Number(token))
  }

  // ----- round trips -----

  lemma {:induction false} EscapeCons(c: char, s: string)
    ensures Escape([c] + s) == (if c == '~' then "~0" else if c == '/' then "~1" else [c]) + Escape(s)
  {
    var tilde := if c == '~' then "~0" else [c];
    assert ([c] + s)[1..] == s;
    var inner := Replace(s, '~', "~0");
    assert Replace([c] + s, '~', "~0") == tilde + inner;
    assert (tilde + inner)[1..] == tilde[1..] + inner;
    if c == '~' {
      assert tilde[1..] + inner == ['0'] + inner && (['0'] + inner)[1..] == inner;
      assert Replace(['0'] + inner, '/', "~1") == ['0'] + Replace(inner, '/', "~1");
      assert Escape([c] + s) == ['~'] + (['0'] + Replace(inner, '/', "~1"));
    } else {
      assert tilde[1..] + inner == inner;
    }
  }

  lemma {:induction false} UnescapeSlashes(token: string)
    ensures Unpair(Escape(token), '1', '/') == Replace(token, '~', "~0")
  {
    if token != "" {
      var c, s := token[0], token[1..];
      UnescapeSlashes(s);
      assert token == [c] + s;
      EscapeCons(c, s);
      var rest := Escape(s);
      if c == '~' {
        assert ("~0" + rest)[1..] == ['0'] + rest && (['0'] + rest)[1..] == rest;
        assert Unpair(['0'] + rest, '1', '/') == ['0'] + Unpair(rest, '1', '/') by { UnpairPlain('0', rest, '1', '/'); }
        assert Unpair("~0" + rest, '1', '/') == ['~'] + (['0'] + Unpair(rest, '1', '/'));
      } else if c == '/' {
        assert ("~1" + rest)[2..] == rest;
      } else {
        UnpairPlain(c, rest, '1', '/');
      }
    }
  }

  lemma UnpairPlain(c: char, s: string, digit: char, with: char)
    requires c != '~'
    ensures Unpair([c] + s, digit, with) == [c] + Unpair(s, digit, with)
  {
    assert ([c] + s)[1..] == s;
  }

  lemma {:induction false} UnescapeTildes(token: string)
    ensures Unpair(Replace(token, '~', "~0"), '0', '~') == token
  {
    if token != "" {
      var c, s := token[0], token[1..];
      UnescapeTildes(s);
      var rest := Replace(s, '~', "~0");
      assert token == [c] + s;
      if c == '~' {
        assert ("~0" + rest)[2..] == rest;
      } else {
        UnpairPlain(c, rest, '0', '~');
      }
    }
  }

  lemma UnescapeEscape(token: string)
    ensures Unescape(Escape(token)) == token
  {
    UnescapeSlashes(token);
    UnescapeTildes(token);
  }

  lemma {:induction false} EscapeHasNoSlash(token: string)
    ensures forall i :: 0 <= i < |Escape(token)| ==> Escape(token)[i] != '/'
  {
    hide Escape;
    if token == "" {
      EscapeEmpty();
    } else {
      EscapeHasNoSlash(token[1..]);
      EscapeCons(token[0], token[1..]);
      assert token == [token[0]] + token[1..];
    }
  }

  lemma EscapeEmpty()
    ensures Escape("") == ""
  {
  }

  /** A written pointer reads back as the path it was written for. */
  lemma {:induction false} DecodeEncode(path: seq<string>)
    ensures Decode(Encode(path)) == Some(path)
  {
    hide Escape, Unescape;
    if path != [] {
      var e, rest := Escape(path[0]), Encode(path[1..]);
      DecodeEncode(path[1..]);
      EscapeHasNoSlash(path[0]);
      UnescapeEscape(path[0]);
      var pointer := Encode(path);
      var n := NextSlash(pointer, 1);
      assert pointer == "/" + e + rest;
      assert rest == "" || rest[0] == '/';
      assert n <= 1 + |e| by {
        assert rest != "" ==> pointer[1 + |e|] == '/';
      }
      assert n == 1 + |e| by {
        assert forall i :: 1 <= i < 1 + |e| ==> pointer[i] == e[i - 1];
      }
      assert pointer[1..n] == e && pointer[n..] == rest;
      assert path == [path[0]] + path[1..];
    }
  }

  /** How the code extends a pointer by one component. */
  lemma {:induction false} EncodeSnoc(path: seq<string>, token: string)
    ensures Encode(path + [token]) == Encode(path) + "/" + Escape(token)
  {
    hide Escape;
    if path == [] {
      assert (path + [token])[1..] == [];
    } else {
      EncodeSnoc(path[1..], token);
      assert (path + [token])[1..] == path[1..] + [token];
    }
  }

  /** An index token reads back as the index. */
  lemma IndexDecimal(n: nat)
    ensures Index(Decimal(n)) == Some(n)
  {
    NumberDecimal(n);
  }

  lemma {:induction false} ReplaceAbsent(s: string, c: char, with: string)
    requires forall i :: 0 <= i < |s| ==> s[i] != c
    ensures Replace(s, c, with) == s
  {
    if s != "" {
      ReplaceAbsent(s[1..], c, with);
      assert s == [s[0]] + s[1..];
    }
  }

  /** Indices need no escaping. */
  lemma EscapeDecimal(n: nat)
    ensures Escape(Decimal(n)) == Decimal(n)
  {
    hide Decimal, Replace;
    NumberDecimal(n);
    ReplaceAbsent(Decimal(n), '~', "~0");
    ReplaceAbsent(Decimal(n), '/', "~1");
  }
}
