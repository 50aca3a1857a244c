/** JSON pointers as strings (lib/nlohmann/detail/json_pointer.hpp and string_escape.hpp):
    escaping, splitting into reference tokens, and array indices. */
module JsonPointer {

  /** What the library throws, by its exception number. */
  datatype Result<+T> = Ok(value: T) | Throw(code: nat)

  // ----- Escaping -----

  /** replace_substring: every occurrence, from the left. */
  function Replace(s: string, f: string, t: string): string
    requires f != ""
    decreases |s|
  {
    if |s| < |f| then s
    else if s[..|f|] == f then t + Replace(s[|f|..], f, t)
    else [s[0]] + Replace(s[1..], f, t)
  }

  function Escape(s: string): string {
    Replace(Replace(s, "~", "~0"), "/", "~1")
  }

  function Unescape(s: string): string {
    Replace(Replace(s, "~1", "/"), "~0", "~")
  }

  /** What a character becomes. */
  function EscapeChar(c: char): string {
    if c == '~' then "~0" else if c == '/' then "~1" else [c]
  }

  function EscapeTilde(c: char): string {
    if c == '~' then "~0" else [c]
  }

  lemma ReplaceOne(c: char, s: string, f: char, t: string)
    ensures Replace([c] + s, [f], t) == (if c == f then t else [c]) + Replace(s, [f], t)
  {
    var all := [c] + s;
    assert all[..1] == [c] && all[1..] == s;
    assert Replace(all, [f], t) ==
        if all[..1] == [f] then t + Replace(all[1..], [f], t) else [all[0]] + Replace(all[1..], [f], t);
  }

  lemma EscapeCons(c: char, s: string)
    ensures Escape([c] + s) == EscapeChar(c) + Escape(s)
    ensures Replace([c] + s, "~", "~0") == EscapeTilde(c) + Replace(s, "~", "~0")
  {
    ReplaceOne(c, s, '~', "~0");
    var rest := Replace(s, "~", "~0");
    if c == '~' {
      assert "~0" + rest == ['~'] + (['0'] + rest);
      ReplaceOne('~', ['0'] + rest, '/', "~1");
      ReplaceOne('0', rest, '/', "~1");
      assert ['~'] + (['0'] + Replace(rest, "/", "~1")) == "~0" + Replace(rest, "/", "~1");
    } else {
      ReplaceOne(c, rest, '/', "~1");
    }
  }

  /** A two-character pattern does not begin here. */
  lemma ReplaceSkip(c: char, s: string, f: string, t: string)
    requires |f| == 2 && (c != f[0] || (s != "" && s[0] != f[1]))
    ensures Replace([c] + s, f, t) == [c] + Replace(s, f, t)
  {
    var all := [c] + s;
    assert all[1..] == s;
    if |all| >= 2 {
      assert all[..2][0] == c && all[..2][1] == s[0];
    }
  }

  lemma ReplaceHit(s: string, f: string, t: string)
    requires |f| == 2
    ensures Replace(f + s, f, t) == t + Replace(s, f, t)
  {
    assert (f + s)[..2] == f && (f + s)[2..] == s;
  }

  /** Undoing the escapes of slashes leaves those of tildes. */
  lemma {:induction false} UnescapeSlashes(s: string)
    ensures Replace(Escape(s), "~1", "/") == Replace(s, "~", "~0")
  {
    if s != "" {
      var c, rest := s[0], s[1..];
      assert s == [c] + rest;
      EscapeCons(c, rest);
      UnescapeSlashes(rest);
      var e := Escape(rest);
      if c == '~' {
        assert "~0" + e == ['~'] + (['0'] + e);
        ReplaceSkip('~', ['0'] + e, "~1", "/");
        ReplaceSkip('0', e, "~1", "/");
        assert ['~'] + (['0'] + Replace(e, "~1", "/")) == "~0" + Replace(e, "~1", "/");
      } else if c == '/' {
        ReplaceHit(e, "~1", "/");
      } else {
        ReplaceSkip(c, e, "~1", "/");
      }
    }
  }

  lemma {:induction false} UnescapeTildes(s: string)
    ensures Replace(Replace(s, "~", "~0"), "~0", "~") == s
  {
    if s != "" {
      var c, rest := s[0], s[1..];
      assert s == [c] + rest;
      EscapeCons(c, rest);
      UnescapeTildes(rest);
      var e := Replace(rest, "~", "~0");
      if c == '~' {
        ReplaceHit(e, "~0", "~");
      } else {
        ReplaceSkip(c, e, "~0", "~");
      }
    }
  }

  /** Unescaping undoes escaping, for every string. */
  lemma UnescapeEscape(s: string)
    ensures Unescape(Escape(s)) == s
  {
    UnescapeSlashes(s);
    UnescapeTildes(s);
  }

  // ----- Splitting -----

  /** Every '~' is followed by '0' or '1'. */
  predicate WellEscaped(s: string) {
    forall i :: 0 <= i < |s| && s[i] == '~' ==> i + 1 < |s| && (s[i + 1] == '0' || s[i + 1] == '1')
  }

  /** The position of the first slash, or the length. */
  function FindSlash(s: string): (n: nat)
    ensures n <= |s| && '/' !in s[..n] && (n < |s| ==> s[n] == '/')
  {
    if s == "" || s[0] == '/' then 0 else 1 + FindSlash(s[1..])
  }

  /** json_pointer::split. */
  function Parse(s: string): Result<seq<string>>
    decreases |s|
  {
    if s == "" then Ok([])
    else if s[0] != '/' then Throw(107)
    else
      var end := FindSlash(s[1..]);
      var token := s[1..][..end];
      if !WellEscaped(token) then Throw(108)
      else
        var rest := Parse(s[1..][end..]);
        if rest.Throw? then rest else Ok([Unescape(token)] + rest.value)
  }

  /** json_pointer::to_string. */
  function Render(tokens: seq<string>): string {
    if tokens == [] then "" else Render(tokens[..|tokens| - 1]) + "/" + Escape(tokens[|tokens| - 1])
  }

  lemma {:induction false} EscapeIsClean(s: string)
    ensures '/' !in Escape(s) && WellEscaped(Escape(s))
  {
    if s != "" {
      var c, rest := s[0], s[1..];
      assert s == [c] + rest;
      EscapeCons(c, rest);
      EscapeIsClean(rest);
      var e, all := Escape(rest), Escape(s);
      var k := |EscapeChar(c)|;
      forall i | 0 <= i < |all| && all[i] == '~' ensures i + 1 < |all| && (all[i + 1] == '0' || all[i + 1] == '1') {
        if i >= k {
          assert all[i] == e[i - k];
        }
      }
    }
  }

  lemma {:induction false} FindSlashAt(token: string, rest: string)
    requires '/' !in token && (rest == "" || rest[0] == '/')
    ensures FindSlash(token + rest) == |token|
  {
    if token == "" {
      assert token + rest == rest;
    } else {
      assert token[0] in token;
      assert (token + rest)[1..] == token[1..] + rest;
      FindSlashAt(token[1..], rest);
    }
  }

  lemma ParseFirst(token: string, rest: string)
    requires rest == "" || rest[0] == '/'
    ensures Parse("/" + Escape(token) + rest) ==
              if Parse(rest).Throw? then Parse(rest) else Ok([token] + Parse(rest).value)
  {
    var e := Escape(token);
    var s := "/" + e + rest;
    assert s[1..] == e + rest;
    EscapeIsClean(token);
    FindSlashAt(e, rest);
    assert s[1..][..|e|] == e && s[1..][|e|..] == rest;
    UnescapeEscape(token);
  }

  ghost function RenderAll(tokens: seq<string>): string {
    if tokens == [] then "" else "/" + Escape(tokens[0]) + RenderAll(tokens[1..])
  }

  lemma {:induction false} RenderSnoc(tokens: seq<string>, t: string)
    ensures RenderAll(tokens + [t]) == RenderAll(tokens) + "/" + Escape(t)
    decreases |tokens|
  {
    if tokens == [] {
      assert ([] + [t])[1..] == [];
    } else {
      assert (tokens + [t])[1..] == tokens[1..] + [t];
      RenderSnoc(tokens[1..], t);
    }
  }

  lemma {:induction false} RenderIsRenderAll(tokens: seq<string>)
    ensures Render(tokens) == RenderAll(tokens)
  {
    if tokens != [] {
      var init, last := tokens[..|tokens| - 1], tokens[|tokens| - 1];
      RenderIsRenderAll(init);
      RenderSnoc(init, last);
      assert tokens == init + [last];
    }
  }

  lemma {:induction false} ParseRenderAll(tokens: seq<string>)
    ensures Parse(RenderAll(tokens)) == Ok(tokens)
    decreases |tokens|
  {
    if tokens != [] {
      ParseRenderAll(tokens[1..]);
      ParseFirst(tokens[0], RenderAll(tokens[1..]));
      assert [tokens[0]] + tokens[1..] == tokens;
    }
  }

  /** Splitting undoes rendering, whatever characters the tokens hold. */
  lemma ParseRender(tokens: seq<string>)
    ensures Parse(Render(tokens)) == Ok(tokens)
  {
    RenderIsRenderAll(tokens);
    ParseRenderAll(tokens);
  }

  // ----- Array indices -----

  function Digit(n: nat): char
    requires n < 10
  {
    '0' + n as char
  }

  predicate IsDigit(c: char) {
    '0' <= c <= '9'
  }

  /** std::to_string. */
  function ToString(n: nat): string {
    if n < 10 then [Digit(n)] else ToString(n / 10) + [Digit(n % 10)]
  }

  function Number(s: string): nat
    requires forall i :: 0 <= i < |s| ==> IsDigit(s[i])
  {
    if s == "" then 0
    else
      var last := s[|s| - 1];
      assert IsDigit(last);
      Number(s[..|s| - 1]) * 10 + (last as int - '0' as int)
  }

  /** json_pointer::array_index, but for indices beyond the range of the machine. */
  function ArrayIndex(s: string): Result<nat> {
    if |s| > 1 && s[0] == '0' then Throw(106)
    else if |s| > 1 && !('1' <= s[0] <= '9') then Throw(109)
    else if s == "" || exists i :: 0 <= i < |s| && !IsDigit(s[i]) then Throw(404)
    else Ok(Number(s))
  }

  lemma {:induction false} ToStringIs(n: nat)
    ensures ToString(n) != "" && forall i :: 0 <= i < |ToString(n)| ==> IsDigit(ToString(n)[i])
    ensures Number(ToString(n)) == n
    ensures n > 0 ==> ToString(n)[0] != '0'
    ensures n < 10 ==> |ToString(n)| == 1
  {
    if n < 10 {
      assert [Digit(n)][..0] == "";
    } else {
      ToStringIs(n / 10);
      var s := ToString(n);
      assert s[..|s| - 1] == ToString(n / 10);
    }
  }

  /** Reading an index undoes printing it. */
  lemma IndexOfToString(n: nat)
    ensures ArrayIndex(ToString(n)) == Ok(n) && ToString(n) != "-"
  {
    ToStringIs(n);
    assert IsDigit(ToString(n)[0]);
    if n < 10 {
    } else {
      assert ToString(n)[0] != '0';
    }
  }
}
