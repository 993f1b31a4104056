/** One line of an OpenSSH client configuration, as host discovery reads it. */
module SshConfigLine {
  import opened Options
  import opened Text

  /** The words of the rest of a line, given the word and quoting state so far. */
  function Scan(line: string, cur: string, quote: Option<char>, escaped: bool): seq<string>
    decreases |line|
  {
    if line == [] then Ended(if escaped then cur + ['\\'] else cur)
    else
      var ch, rest := line[0], line[1..];
      if escaped then Scan(rest, cur + [ch], quote, false)
      else if ch == '\\' then Scan(rest, cur, quote, true)
      else if quote.Some? then
        if ch == quote.value then Scan(rest, cur, None, false) else Scan(rest, cur + [ch], quote, false)
      else if ch == '\'' || ch == '"' then Scan(rest, cur, Some(ch), false)
      else if ch == '#' then Ended(cur)
      else if IsWhitespace(ch) then Ended(cur) + Scan(rest, [], None, false)
      else Scan(rest, cur + [ch], None, false)
  }

  function Ended(cur: string): seq<string> {
    if cur == [] then [] else [cur]
  }

  /** `tokenize_openssh_line`. */
  method Tokenize(line: string) returns (out: seq<string>)
    ensures out == Scan(line, [], None, false)
  {
    out := [];
    var cur, quote, escaped := [], None, false;
    for i := 0 to |line|
      invariant out + Scan(line[i..], cur, quote, escaped) == Scan(line, [], None, false)
    {
      var ch := line[i];
      assert line[i..][1..] == line[i + 1..];
      if escaped {
        cur, escaped := cur + [ch], false;
      } else if ch == '\\' {
        escaped := true;
      } else if quote.Some? {
        if ch == quote.value { quote := None; } else { cur := cur + [ch]; }
      } else if ch == '\'' || ch == '"' {
        quote := Some(ch);
      } else if ch == '#' {
        return out + Ended(cur);
      } else if IsWhitespace(ch) {
        if cur != [] { out := out + [cur]; }
        cur := [];
      } else {
        cur := cur + [ch];
      }
    }
    if escaped { cur := cur + ['\\']; }
    out := out + Ended(cur);
  }

  // ----- quoting undone

  function Escaped(word: string): string {
    if word == [] then []
    else EscapedChar(word[0]) + Escaped(word[1..])
  }

  /** A line holding `words`, each in double quotes. */
  function Quoted(words: seq<string>): string {
    if words == [] then [] else ['"'] + (Escaped(words[0]) + (['"', ' '] + Quoted(words[1..])))
  }

  function EscapedChar(c: char): string {
    if c == '"' || c == '\\' then ['\\', c] else [c]
  }

  lemma {:induction false} ScanEscapedChar(c: char, tail: string, cur: string)
    ensures Scan(EscapedChar(c) + tail, cur, Some('"'), false) == Scan(tail, cur + [c], Some('"'), false)
  {
    assert ([c] + tail)[1..] == tail;
    if c == '"' || c == '\\' {
      assert (['\\', c] + tail)[1..] == [c] + tail;
    }
  }

  lemma {:induction false} ScanEscaped(word: string, rest: string, cur: string)
    ensures Scan(Escaped(word) + rest, cur, Some('"'), false) == Scan(rest, cur + word, Some('"'), false)
    decreases |word|
  {
    hide Scan;
    if word == [] {
      assert Escaped(word) + rest == rest && cur + word == cur;
    } else {
      var c, tail := word[0], Escaped(word[1..]) + rest;
      assert Escaped(word) + rest == EscapedChar(c) + tail;
      ScanEscapedChar(c, tail, cur);
      ScanEscaped(word[1..], rest, cur + [c]);
      assert cur + [c] + word[1..] == cur + word;
    }
  }

  lemma ScanNothing()
    ensures Scan([], [], None, false) == []
  {}

  lemma ScanOpen(rest: string)
    ensures Scan(['"'] + rest, [], None, false) == Scan(rest, [], Some('"'), false)
  {
    assert (['"'] + rest)[1..] == rest;
  }

  lemma ScanClose(word: string, rest: string)
    ensures Scan(['"', ' '] + rest, word, Some('"'), false) == Ended(word) + Scan(rest, [], None, false)
  {
    assert (['"', ' '] + rest)[1..] == [' '] + rest && ([' '] + rest)[1..] == rest;
  }

  /** Quoting any non-empty words, whatever characters they hold, and tokenizing the line
      gives the words back. */
  lemma {:induction false} TokenizeUndoesQuoting(words: seq<string>)
    requires forall i :: 0 <= i < |words| ==> words[i] != []
    ensures Scan(Quoted(words), [], None, false) == words
    decreases |words|
  {
    hide Scan, Escaped;
    if words == [] {
      ScanNothing();
    } else {
      var w, rest := words[0], Quoted(words[1..]);
      var close := ['"', ' '] + rest;
      ScanOpen(Escaped(w) + close);
      ScanEscaped(w, close, []);
      assert [] + w == w;
      ScanClose(w, rest);
      TokenizeUndoesQuoting(words[1..]);
      assert words == [w] + words[1..];
    }
  }

  /** A word that needs no quoting. */
  predicate Plain(word: string) {
    word != [] && forall c :: c in word ==> !IsWhitespace(c) && c != '#' && c != '\\' && c != '\'' && c != '"'
  }

  /** A line holding `words` as they are, a space after each. */
  function Spaced(words: seq<string>): string {
    if words == [] then [] else words[0] + ([' '] + Spaced(words[1..]))
  }

  lemma {:induction false} ScanPlain(word: string, rest: string, cur: string)
    requires forall c :: c in word ==> !IsWhitespace(c) && c != '#' && c != '\\' && c != '\'' && c != '"'
    ensures Scan(word + rest, cur, None, false) == Scan(rest, cur + word, None, false)
    decreases |word|
  {
    if word == [] {
      assert word + rest == rest && cur + word == cur;
    } else {
      assert (word + rest)[0] == word[0] && (word + rest)[1..] == word[1..] + rest;
      ScanPlain(word[1..], rest, cur + [word[0]]);
      assert cur + [word[0]] + word[1..] == cur + word;
    }
  }

  lemma ScanSpace(word: string, rest: string)
    ensures Scan([' '] + rest, word, None, false) == Ended(word) + Scan(rest, [], None, false)
  {
    assert ([' '] + rest)[1..] == rest;
  }

  lemma ScanComment(comment: string)
    ensures Scan(['#'] + comment, [], None, false) == []
  {}

  /** Words without special characters stand as they are, and what follows a `#` is ignored. */
  lemma {:induction false} TokenizePlain(words: seq<string>, comment: string)
    requires forall i :: 0 <= i < |words| ==> Plain(words[i])
    ensures Scan(Spaced(words) + (['#'] + comment), [], None, false) == words
    decreases |words|
  {
    hide Scan;
    var tail := ['#'] + comment;
    if words == [] {
      assert Spaced(words) + tail == tail;
      ScanComment(comment);
    } else {
      var w, rest := words[0], Spaced(words[1..]) + tail;
      assert Spaced(words) + tail == w + ([' '] + rest);
      ScanPlain(w, [' '] + rest, []);
      assert [] + w == w;
      ScanSpace(w, rest);
      TokenizePlain(words[1..], comment);
      assert words == [w] + words[1..];
    }
  }

  lemma {:induction false} ScanWithin(word: string, rest: string, cur: string)
    requires '\'' !in word && '\\' !in word
    ensures Scan(word + rest, cur, Some('\''), false) == Scan(rest, cur + word, Some('\''), false)
    decreases |word|
  {
    if word == [] {
      assert word + rest == rest && cur + word == cur;
    } else {
      assert (word + rest)[0] == word[0] && (word + rest)[1..] == word[1..] + rest;
      ScanWithin(word[1..], rest, cur + [word[0]]);
      assert cur + [word[0]] + word[1..] == cur + word;
    }
  }

  /** Single quotes hold anything but themselves and a backslash, spaces and `#` included. */
  lemma SingleQuoted(word: string)
    requires word != [] && '\'' !in word && '\\' !in word
    ensures Scan(['\''] + (word + ['\'']), [], None, false) == [word]
  {
    var rest := word + ['\''];
    assert (['\''] + rest)[1..] == rest;
    ScanWithin(word, ['\''], []);
    assert [] + word == word && ['\''][1..] == [];
  }

  // ----- what a line means for discovery

  datatype Directive = Other | HostAliases(aliases: seq<string>) | Include(values: seq<string>)

  /** `split_keyword_equals`: `Key=value` counts as two words. */
  function SplitKeyword(parts: seq<string>): (r: seq<string>)
    requires parts != []
    ensures r != []
  {
    match Find(parts[0], '=')
    case None => parts
    case Some(k) =>
      var key, value := parts[0][..k], parts[0][k + 1..];
      [key] + (if value == [] then [] else [value]) + parts[1..]
  }

  /** `explicit_host_alias`: a name, not a pattern or a negation. */
  predicate ExplicitAlias(value: string) {
    value != [] && value[0] != '!' && '*' !in value && '?' !in value
  }

  function Explicit(values: seq<string>): seq<string> {
    if values == [] then []
    else (if ExplicitAlias(values[0]) then [values[0]] else []) + Explicit(values[1..])
  }

  function Classify(line: string): Directive {
    var words := Scan(line, [], None, false);
    if words == [] then Other
    else
      var parts := SplitKeyword(words);
      if EqIgnoreCase(parts[0], "Host") then HostAliases(Explicit(parts[1..]))
      else if EqIgnoreCase(parts[0], "Include") then Include(parts[1..])
      else Other
  }

  /** What counts as a host, and what as a pattern. */
  lemma AliasForms()
    ensures ExplicitAlias("web") && !ExplicitAlias("") && !ExplicitAlias("!web")
    ensures !ExplicitAlias("*") && !ExplicitAlias("web*") && !ExplicitAlias("web?")
  {
    assert "*"[0] == '*' && "web*"[3] == '*' && "web?"[3] == '?';
  }

  /** `Host=web` means `Host web`, in any case of the keyword. */
  lemma KeywordForms(key: string, values: seq<string>)
    requires '=' !in key && forall i :: 0 <= i < |values| ==> values[i] != []
    ensures values != [] ==> SplitKeyword([key + ['='] + values[0]] + values[1..]) == [key] + values
    ensures SplitKeyword([key] + values) == [key] + values
  {
    if values != [] {
      var first := key + ['='] + values[0];
      FindIs(first, '=', |key|);
      assert first[..|key|] == key && first[|key| + 1..] == values[0];
      assert ([first] + values[1..])[1..] == values[1..];
      assert values == [values[0]] + values[1..];
    }
  }

  lemma KeywordCase()
    ensures EqIgnoreCase("HOST", "Host") && EqIgnoreCase("include", "Include") && !EqIgnoreCase("Hosts", "Host")
  {
    assert LowerAscii('O') == 'o' && LowerAscii('S') == 's' && LowerAscii('T') == 't' && LowerAscii('H') == 'h';
    assert LowerAscii('I') == 'i';
  }

  /** Of the values of a `Host` line, the explicit ones in order. */
  lemma ExplicitOrder(v: string, values: seq<string>)
    ensures Explicit([v] + values) == (if ExplicitAlias(v) then [v] else []) + Explicit(values)
    ensures Explicit([]) == []
  {
    hide ExplicitAlias;
    assert ([v] + values)[1..] == values;
  }
}
