/**
 * The string logic of the browser client: HTML escaping of the values it renders, the
 * case-insensitive name search over the loaded items, and the query string of the
 * item list request.
 */
module Client {
  import opened Wrappers
  import opened Js
  import Text

  /*
   * escapeHtml
   */

  /**
   * The five `replaceAll` calls of `escapeHtml`, `&` first so no inserted entity is escaped
   * again. No markup character survives them.
   */
  function EscapeText(s: string): (r: string)
    ensures '<' !in r && '>' !in r && '"' !in r && '\'' !in r
  {
    var amp := Text.ReplaceAll(s, '&', "&amp;");
    var lt := Text.ReplaceAll(amp, '<', "&lt;");
    var gt := Text.ReplaceAll(lt, '>', "&gt;");
    EntitiesHaveNoMarkup();
    Text.ReplaceAllKeepsAbsent(lt, '>', "&gt;", '<');
    var quot := Text.ReplaceAll(gt, '"', "&quot;");
    Text.ReplaceAllKeepsAbsent(gt, '"', "&quot;", '<');
    Text.ReplaceAllKeepsAbsent(gt, '"', "&quot;", '>');
    Text.ReplaceAllKeepsAbsent(quot, '\'', "&#039;", '<');
    Text.ReplaceAllKeepsAbsent(quot, '\'', "&#039;", '>');
    Text.ReplaceAllKeepsAbsent(quot, '\'', "&#039;", '"');
    Text.ReplaceAll(quot, '\'', "&#039;")
  }

  /** `escapeHtml(v)`: `null` and `undefined` render as the empty string, anything else through `String(v)`. */
  function EscapeHtml(rt: Runtime, v: Option<Value>): (r: string)
    ensures v.None? || v == Some(Null) ==> r == ""
    ensures v.Some? && !v.value.Null? ==> r == EscapeText(ToStr(rt, v.value))
    ensures v.Some? && v.value.Str? ==> r == EscapeText(v.value.s)
  {
    var s := if v.None? || v.value.Null? then "" else ToStr(rt, v.value);
    EscapeText(s)
  }

  /** The entities written after `&lt;` contain none of the markup characters replaced before them. */
  lemma EntitiesHaveNoMarkup()
    ensures '<' !in "&gt;" && '<' !in "&quot;" && '>' !in "&quot;"
    ensures '<' !in "&#039;" && '>' !in "&#039;" && '"' !in "&#039;"
  {
  }

  /** The characters `escapeHtml` rewrites. */
  predicate IsSpecial(c: char) {
    c == '&' || c == '<' || c == '>' || c == '"' || c == '\''
  }

  /** The entity one character is written as (a plain character stands for itself). */
  function EscapeChar(c: char): (r: string)
    ensures r != [] && (r[0] == '&' <==> IsSpecial(c))
    ensures forall i :: 0 < i < |r| ==> r[i] != '&'
    ensures forall i :: 0 <= i < |r| ==> r[i] != '<' && r[i] != '>' && r[i] != '"' && r[i] != '\''
  {
    if c == '&' then "&amp;"
    else if c == '<' then "&lt;"
    else if c == '>' then "&gt;"
    else if c == '"' then "&quot;"
    else if c == '\'' then "&#039;"
    else [c]
  }

  /** Escaping character by character: a reference definition of `escapeHtml` in one pass. */
  function FlatEscape(s: string): (r: string)
    ensures forall i :: 0 <= i < |r| ==> r[i] != '<' && r[i] != '>' && r[i] != '"' && r[i] != '\''
  {
    if s == [] then [] else EscapeChar(s[0]) + FlatEscape(s[1..])
  }

  /** Each replacement distributes over concatenation, so the whole chain does. */
  lemma EscapeConcat(a: string, b: string)
    ensures EscapeText(a + b) == EscapeText(a) + EscapeText(b)
  {
    Text.ReplaceAllConcat(a, b, '&', "&amp;");
    var a1, b1 := Text.ReplaceAll(a, '&', "&amp;"), Text.ReplaceAll(b, '&', "&amp;");
    Text.ReplaceAllConcat(a1, b1, '<', "&lt;");
    var a2, b2 := Text.ReplaceAll(a1, '<', "&lt;"), Text.ReplaceAll(b1, '<', "&lt;");
    Text.ReplaceAllConcat(a2, b2, '>', "&gt;");
    var a3, b3 := Text.ReplaceAll(a2, '>', "&gt;"), Text.ReplaceAll(b2, '>', "&gt;");
    Text.ReplaceAllConcat(a3, b3, '"', "&quot;");
    var a4, b4 := Text.ReplaceAll(a3, '"', "&quot;"), Text.ReplaceAll(b3, '"', "&quot;");
    Text.ReplaceAllConcat(a4, b4, '\'', "&#039;");
  }

  /** A string without special characters goes through every replacement unchanged. */
  lemma EscapePlain(s: string)
    requires forall i :: 0 <= i < |s| ==> !IsSpecial(s[i])
    ensures EscapeText(s) == s
  {
    Text.ReplaceAllAbsent(s, '&', "&amp;");
    Text.ReplaceAllAbsent(s, '<', "&lt;");
    Text.ReplaceAllAbsent(s, '>', "&gt;");
    Text.ReplaceAllAbsent(s, '"', "&quot;");
    Text.ReplaceAllAbsent(s, '\'', "&#039;");
  }

  /** Replacing in a one-character string. */
  lemma ReplaceOne(c: char, p: char, rep: string)
    ensures Text.ReplaceAll([c], p, rep) == if c == p then rep else [c]
  {
    assert [c][1..] == [];
  }

  /** A string without `<`, `>`, `"` and `'` passes the last four replacements unchanged. */
  lemma AfterAmpUnchanged(e: string)
    requires '<' !in e && '>' !in e && '"' !in e && '\'' !in e
    ensures Text.ReplaceAll(Text.ReplaceAll(Text.ReplaceAll(Text.ReplaceAll(e, '<', "&lt;"), '>', "&gt;"), '"', "&quot;"), '\'', "&#039;") == e
  {
    Text.ReplaceAllAbsent(e, '<', "&lt;");
    Text.ReplaceAllAbsent(e, '>', "&gt;");
    Text.ReplaceAllAbsent(e, '"', "&quot;");
    Text.ReplaceAllAbsent(e, '\'', "&#039;");
  }

  /** `&` becomes `&amp;`, which the later replacements leave alone. */
  lemma EscapeAmp()
    ensures EscapeText("&") == "&amp;"
  {
    ReplaceOne('&', '&', "&amp;");
    AfterAmpUnchanged("&amp;");
  }

  /** `<` becomes `&lt;`. */
  lemma EscapeLt()
    ensures EscapeText("<") == "&lt;"
  {
    ReplaceOne('<', '&', "&amp;");
    assert Text.ReplaceAll("<", '&', "&amp;") == "<";
    ReplaceOne('<', '<', "&lt;");
    assert Text.ReplaceAll("<", '<', "&lt;") == "&lt;";
    AfterLtUnchanged("&lt;");
  }

  /** A string without `>`, `"` and `'` passes the last three replacements unchanged. */
  lemma AfterLtUnchanged(e: string)
    requires '>' !in e && '"' !in e && '\'' !in e
    ensures Text.ReplaceAll(Text.ReplaceAll(Text.ReplaceAll(e, '>', "&gt;"), '"', "&quot;"), '\'', "&#039;") == e
  {
    Text.ReplaceAllAbsent(e, '>', "&gt;");
    Text.ReplaceAllAbsent(e, '"', "&quot;");
    Text.ReplaceAllAbsent(e, '\'', "&#039;");
  }

  /** `>` becomes `&gt;`. */
  lemma EscapeGt()
    ensures EscapeText(">") == "&gt;"
  {
    ReplaceOne('>', '&', "&amp;");
    ReplaceOne('>', '<', "&lt;");
    ReplaceOne('>', '>', "&gt;");
    Text.ReplaceAllAbsent("&gt;", '"', "&quot;");
    Text.ReplaceAllAbsent("&gt;", '\'', "&#039;");
  }

  /** `"` becomes `&quot;`. */
  lemma EscapeQuot()
    ensures EscapeText("\"") == "&quot;"
  {
    ReplaceOne('"', '&', "&amp;");
    ReplaceOne('"', '<', "&lt;");
    ReplaceOne('"', '>', "&gt;");
    ReplaceOne('"', '"', "&quot;");
    Text.ReplaceAllAbsent("&quot;", '\'', "&#039;");
  }

  /** `'` becomes `&#039;`. */
  lemma EscapeApos()
    ensures EscapeText("'") == "&#039;"
  {
    ReplaceOne('\'', '&', "&amp;");
    ReplaceOne('\'', '<', "&lt;");
    ReplaceOne('\'', '>', "&gt;");
    ReplaceOne('\'', '"', "&quot;");
    ReplaceOne('\'', '\'', "&#039;");
  }

  /** The chain on one character gives that character's entity. */
  lemma EscapeOne(c: char)
    ensures EscapeText([c]) == EscapeChar(c)
  {
    if c == '&' {
      EscapeAmp();
    } else if c == '<' {
      EscapeLt();
    } else if c == '>' {
      EscapeGt();
    } else if c == '"' {
      EscapeQuot();
    } else if c == '\'' {
      EscapeApos();
    } else {
      EscapePlain([c]);
    }
  }

  /** The chain of replacements is the one-pass escape. */
  lemma {:induction false} EscapeTextIsFlat(s: string)
    ensures EscapeText(s) == FlatEscape(s)
  {
    if s != [] {
      assert s == [s[0]] + s[1..];
      EscapeConcat([s[0]], s[1..]);
      EscapeOne(s[0]);
      EscapeTextIsFlat(s[1..]);
    }
  }

  /** `t` begins with one of the five entities `escapeHtml` writes. */
  predicate StartsEntity(t: string) {
    "&amp;" <= t || "&lt;" <= t || "&gt;" <= t || "&quot;" <= t || "&#039;" <= t
  }

  /** In a one-pass escape, every `&` begins an entity. */
  lemma {:induction false} FlatAmpersands(s: string)
    ensures forall i :: 0 <= i < |FlatEscape(s)| && FlatEscape(s)[i] == '&' ==> StartsEntity(FlatEscape(s)[i..])
  {
    if s != [] {
      var e, rest := EscapeChar(s[0]), FlatEscape(s[1..]);
      var r := FlatEscape(s);
      assert r == e + rest;
      FlatAmpersands(s[1..]);
      forall i | 0 <= i < |r| && r[i] == '&' ensures StartsEntity(r[i..]) {
        if i < |e| {
          assert i == 0 && r[i..] == e + rest;
        } else {
          assert r[i] == rest[i - |e|] && r[i..] == rest[i - |e|..];
        }
      }
    }
  }

  /** In the output of `escapeHtml`, every `&` begins one of the five entities. */
  lemma EscapeAmpersands(s: string)
    ensures forall i :: 0 <= i < |EscapeText(s)| && EscapeText(s)[i] == '&' ==> StartsEntity(EscapeText(s)[i..])
  {
    EscapeTextIsFlat(s);
    FlatAmpersands(s);
  }

  /** What a browser reads back from the escaped text: the five entities decoded. */
  function Unescape(s: string): string
    decreases |s|
  {
    if s == [] then []
    else if "&amp;" <= s then "&" + Unescape(s[5..])
    else if "&lt;" <= s then "<" + Unescape(s[4..])
    else if "&gt;" <= s then ">" + Unescape(s[4..])
    else if "&quot;" <= s then "\"" + Unescape(s[6..])
    else if "&#039;" <= s then "'" + Unescape(s[6..])
    else [s[0]] + Unescape(s[1..])
  }

  /** Decoding one entity, or one plain character, in front of the rest. */
  lemma UnescapeStep(c: char, rest: string)
    ensures Unescape(EscapeChar(c) + rest) == [c] + Unescape(rest)
  {
    if c == '&' {
      UnescapeAmpStep(rest);
    } else if c == '<' {
      UnescapeLtStep(rest);
    } else if c == '>' {
      UnescapeGtStep(rest);
    } else if c == '"' {
      UnescapeQuotStep(rest);
    } else if c == '\'' {
      UnescapeAposStep(rest);
    } else {
      var t := EscapeChar(c) + rest;
      assert t[0] == c && t[1..] == rest;
    }
  }

  lemma UnescapeAmpStep(rest: string)
    ensures Unescape("&amp;" + rest) == "&" + Unescape(rest)
  {
    var t := "&amp;" + rest;
    assert t[..5] == "&amp;" && t[5..] == rest;
  }

  lemma UnescapeLtStep(rest: string)
    ensures Unescape("&lt;" + rest) == "<" + Unescape(rest)
  {
    var t := "&lt;" + rest;
    assert t[1] == 'l' && t[..4] == "&lt;" && t[4..] == rest;
  }

  lemma UnescapeGtStep(rest: string)
    ensures Unescape("&gt;" + rest) == ">" + Unescape(rest)
  {
    var t := "&gt;" + rest;
    assert t[1] == 'g' && t[..4] == "&gt;" && t[4..] == rest;
  }

  lemma UnescapeQuotStep(rest: string)
    ensures Unescape("&quot;" + rest) == "\"" + Unescape(rest)
  {
    var t := "&quot;" + rest;
    assert t[1] == 'q' && t[..6] == "&quot;" && t[6..] == rest;
  }

  lemma UnescapeAposStep(rest: string)
    ensures Unescape("&#039;" + rest) == "'" + Unescape(rest)
  {
    var t := "&#039;" + rest;
    assert t[1] == '#' && t[..6] == "&#039;" && t[6..] == rest;
  }

  /** The text shown is exactly the text escaped: no character is lost or escaped twice. */
  lemma {:induction false} UnescapeEscape(s: string)
    ensures Unescape(EscapeText(s)) == s
  {
    EscapeTextIsFlat(s);
    UnescapeFlat(s);
  }

  lemma {:induction false} UnescapeFlat(s: string)
    ensures Unescape(FlatEscape(s)) == s
  {
    if s != [] {
      UnescapeStep(s[0], FlatEscape(s[1..]));
      UnescapeFlat(s[1..]);
    }
  }

  /*
   * The search of renderRows
   */

  /** `(searchInput?.value || "").trim().toLowerCase()`. */
  function SearchTerm(input: Option<string>): (term: string)
    ensures input.None? ==> term == ""
    ensures input.Some? ==> (term == "" <==> Text.IsBlank(input.value))
  {
    if input.None? then ""
    else
      Text.TrimEmptyIffBlank(input.value);
      Text.ToLower(Text.Trim(input.value))
  }

  /** `String(it.name || "").toLowerCase()`: the text an item is searched by. */
  function NameKey(rt: Runtime, item: Value): string {
    var name := Prop(Some(item), "name");
    Text.ToLower(if Truthy(name) then ToStr(rt, name.value) else "")
  }

  /** An item the search keeps. */
  predicate Matches(rt: Runtime, item: Value, term: string) {
    Text.Contains(NameKey(rt, item), term)
  }

  /** `items.filter(...)`: the matching items, in their original order. */
  function Filter(rt: Runtime, items: seq<Value>, term: string): (r: seq<Value>)
    ensures |r| <= |items|
  {
    if items == [] then []
    else (if Matches(rt, items[0], term) then [items[0]] else []) + Filter(rt, items[1..], term)
  }

  /** An item is kept exactly when it is one of the items and matches. */
  lemma {:induction false} FilterMembers(rt: Runtime, items: seq<Value>, term: string)
    ensures forall x :: x in Filter(rt, items, term) <==> x in items && Matches(rt, x, term)
  {
    if items != [] {
      FilterMembers(rt, items[1..], term);
      assert forall x :: x in items <==> x == items[0] || x in items[1..];
    }
  }

  /** Filtering a concatenation filters each part and keeps them in order. */
  lemma {:induction false} FilterConcat(rt: Runtime, a: seq<Value>, b: seq<Value>, term: string)
    ensures Filter(rt, a + b, term) == Filter(rt, a, term) + Filter(rt, b, term)
  {
    if a == [] {
      assert a + b == b;
    } else {
      var ab := a + b;
      assert ab[0] == a[0] && ab[1..] == a[1..] + b;
      FilterConcat(rt, a[1..], b, term);
      if Matches(rt, a[0], term) {
        assert Filter(rt, ab, term) == [a[0]] + Filter(rt, a[1..] + b, term);
        assert Filter(rt, a, term) == [a[0]] + Filter(rt, a[1..], term);
      } else {
        assert Filter(rt, ab, term) == Filter(rt, a[1..] + b, term);
        assert Filter(rt, a, term) == Filter(rt, a[1..], term);
      }
    }
  }

  /** An empty term keeps every item. */
  lemma {:induction false} FilterEmptyTerm(rt: Runtime, items: seq<Value>)
    ensures Filter(rt, items, "") == items
  {
    if items != [] {
      Text.ContainsEmpty(NameKey(rt, items[0]));
      FilterEmptyTerm(rt, items[1..]);
    }
  }

  /**
   * The rows `renderRows` shows: every item for an empty or blank search, otherwise
   * the items whose lower-cased name contains the trimmed, lower-cased search.
   * An item that is `null` would make the source throw, so none is.
   */
  function SearchRows(rt: Runtime, items: seq<Value>, input: Option<string>): (r: seq<Value>)
    requires forall i :: 0 <= i < |items| ==> !items[i].Null?
    ensures input.None? || Text.IsBlank(input.value) ==> r == items
    ensures forall x :: x in r <==> x in items && Matches(rt, x, SearchTerm(input))
    ensures r == Filter(rt, items, SearchTerm(input))
  {
    var term := SearchTerm(input);
    FilterEmptyTerm(rt, items);
    FilterMembers(rt, items, term);
    if term != "" then Filter(rt, items, term) else items
  }

  /*
   * buildItemsQuery
   */

  /** Characters `application/x-www-form-urlencoded` leaves as they are. */
  predicate IsUnreserved(c: char) {
    ('a' <= c <= 'z') || ('A' <= c <= 'Z') || ('0' <= c <= '9') || c == '*' || c == '-' || c == '.' || c == '_'
  }

  /** The UTF-8 bytes of one character. */
  function Utf8(c: char): (bytes: seq<int>)
    ensures 1 <= |bytes| <= 4
    ensures forall i :: 0 <= i < |bytes| ==> 0 <= bytes[i] < 256
  {
    var n := c as int;
    if n < 0x80 then [n]
    else if n < 0x800 then [0xC0 + n / 0x40, 0x80 + n % 0x40]
    else if n < 0x1_0000 then [0xE0 + n / 0x1000, 0x80 + (n / 0x40) % 0x40, 0x80 + n % 0x40]
    else [0xF0 + n / 0x4_0000, 0x80 + (n / 0x1000) % 0x40, 0x80 + (n / 0x40) % 0x40, 0x80 + n % 0x40]
  }

  /** An upper-case hexadecimal digit. */
  function HexDigit(d: int): (c: char)
    requires 0 <= d < 16
    ensures ('0' <= c <= '9') || ('A' <= c <= 'F')
  {
    if d < 10 then ('0' as int + d) as char else ('A' as int + d - 10) as char
  }

  /** `%XX` for each byte. */
  function PercentBytes(bytes: seq<int>): (r: string)
    requires forall i :: 0 <= i < |bytes| ==> 0 <= bytes[i] < 256
    ensures |r| == 3 * |bytes|
    ensures forall i :: 0 <= i < |r| ==> r[i] == '%' || IsUnreserved(r[i])
  {
    if bytes == [] then []
    else ['%', HexDigit(bytes[0] / 16), HexDigit(bytes[0] % 16)] + PercentBytes(bytes[1..])
  }

  /** Byte `i` is written at positions `3*i` to `3*i+2`: `%` and its two upper-case hex digits. */
  lemma {:induction false} PercentBytesAt(bytes: seq<int>, i: int)
    requires forall k :: 0 <= k < |bytes| ==> 0 <= bytes[k] < 256
    requires 0 <= i < |bytes|
    ensures PercentBytes(bytes)[3 * i] == '%'
    ensures PercentBytes(bytes)[3 * i + 1] == HexDigit(bytes[i] / 16)
    ensures PercentBytes(bytes)[3 * i + 2] == HexDigit(bytes[i] % 16)
  {
    if i > 0 {
      var rest := bytes[1..];
      PercentBytesAt(rest, i - 1);
      assert rest[i - 1] == bytes[i];
    }
  }

  /** The form encoding of one character: kept, `+` for a space, or its percent-encoded bytes. */
  function FormEncodeChar(c: char): (r: string)
    ensures r != []
    ensures forall i :: 0 <= i < |r| ==> r[i] == '%' || r[i] == '+' || IsUnreserved(r[i])
  {
    if IsUnreserved(c) then [c] else if c == ' ' then "+" else PercentBytes(Utf8(c))
  }

  /** The form encoding of a value, as `URLSearchParams` writes it. */
  function FormEncode(s: string): (r: string)
    ensures forall i :: 0 <= i < |r| ==> r[i] == '%' || r[i] == '+' || IsUnreserved(r[i])
  {
    if s == [] then [] else FormEncodeChar(s[0]) + FormEncode(s[1..])
  }

  /** A value made of unreserved characters, like every field name, is sent as it is. */
  lemma {:induction false} FormEncodeUnreserved(s: string)
    requires forall i :: 0 <= i < |s| ==> IsUnreserved(s[i])
    ensures FormEncode(s) == s
  {
    if s != [] {
      FormEncodeUnreserved(s[1..]);
    }
  }

  /**
   * `buildItemsQuery`: nothing when no sort is selected, else `?sort=` and the encoded
   * value, which cannot contain `&`, `=`, `#` or a space, so the request carries
   * exactly one parameter.
   */
  function BuildItemsQuery(sort: Option<string>): (r: string)
    ensures sort.None? || sort.value == "" ==> r == ""
    ensures sort.Some? && sort.value != "" ==> r == "?sort=" + FormEncode(sort.value)
    ensures forall i :: 6 <= i < |r| ==> r[i] != '&' && r[i] != '=' && r[i] != '#' && r[i] != ' '
  {
    if sort.None? || sort.value == "" then ""
    else
      var encoded := FormEncode(sort.value);
      var qs := "sort=" + encoded;
      assert "?" + qs == "?sort=" + encoded;
      NoDelimitersAfterKey("?" + qs, encoded);
      "?" + qs
  }

  /** After `?sort=`, a form-encoded value holds no `&`, `=`, `#` or space. */
  lemma NoDelimitersAfterKey(query: string, encoded: string)
    requires query == "?sort=" + encoded
    requires forall i :: 0 <= i < |encoded| ==> encoded[i] == '%' || encoded[i] == '+' || IsUnreserved(encoded[i])
    ensures forall i :: 6 <= i < |query| ==> query[i] != '&' && query[i] != '=' && query[i] != '#' && query[i] != ' '
  {
    assert forall i :: 6 <= i < |query| ==> query[i] == encoded[i - 6];
  }
}
