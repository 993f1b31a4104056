/** Characters and strings as the source treats them. */
module Text {
  import opened Options

  /** `char::is_whitespace`: the Unicode White_Space code points. */
  predicate IsWhitespace(c: char) {
    var u := c as int;
    || 0x09 <= u <= 0x0D || u == 0x20 || u == 0x85 || u == 0xA0 || u == 0x1680
    || 0x2000 <= u <= 0x200A || u == 0x2028 || u == 0x2029 || u == 0x202F || u == 0x205F || u == 0x3000
  }

  function LowerAscii(c: char): char {
    if 'A' <= c <= 'Z' then (c as int + 32) as char else c
  }

  /** `eq_ignore_ascii_case`. */
  predicate EqIgnoreCase(s: string, t: string) {
    |s| == |t| && forall i :: 0 <= i < |s| ==> LowerAscii(s[i]) == LowerAscii(t[i])
  }

  /** The index of the first `c`. */
  function Find(s: string, c: char): (k: Option<nat>)
    ensures k.Some? ==> k.value < |s| && s[k.value] == c && forall i :: 0 <= i < k.value ==> s[i] != c
    ensures k.None? ==> c !in s
  {
    if s == [] then None
    else if s[0] == c then Some(0)
    else match Find(s[1..], c)
      case None => None
      case Some(k) => Some(k + 1)
  }

  /** The index of the last `c`. */
  function FindLast(s: string, c: char): (k: Option<nat>)
    ensures k.Some? ==> k.value < |s| && s[k.value] == c && forall i :: k.value < i < |s| ==> s[i] != c
    ensures k.None? ==> c !in s
  {
    if s == [] then None
    else
      var n := |s| - 1;
      if s[n] == c then Some(n) else FindLast(s[..n], c)
  }

  lemma {:induction false} FindIs(s: string, c: char, k: nat)
    requires k < |s| && s[k] == c && forall i :: 0 <= i < k ==> s[i] != c
    ensures Find(s, c) == Some(k)
  {
    var m := Find(s, c);
    assert s[k] in s;
  }

  lemma {:induction false} FindLastIs(s: string, c: char, k: nat)
    requires k < |s| && s[k] == c && forall i :: k < i < |s| ==> s[i] != c
    ensures FindLast(s, c) == Some(k)
  {
    var m := FindLast(s, c);
    assert s[k] in s;
  }

  /** `str` ordering: by the first character that differs, a prefix first. */
  predicate Less(s: string, t: string) {
    t != [] && (s == [] || s[0] < t[0] || (s[0] == t[0] && Less(s[1..], t[1..])))
  }

  lemma {:induction false} LessTotal(s: string, t: string)
    ensures s == t || Less(s, t) || Less(t, s)
    ensures !(Less(s, t) && Less(t, s)) && !(Less(s, t) && s == t)
  {
    if s != [] && t != [] && s[0] == t[0] {
      LessTotal(s[1..], t[1..]);
      assert s == [s[0]] + s[1..] && t == [t[0]] + t[1..];
    }
  }

  lemma {:induction false} LessTransitive(s: string, t: string, u: string)
    requires Less(s, t) && Less(t, u)
    ensures Less(s, u)
  {
    if s != [] && s[0] == t[0] == u[0] { LessTransitive(s[1..], t[1..], u[1..]); }
  }

  /** The order by the first character that differs; a prefix comes first. */
  lemma {:induction false} LessMeans(p: string, a: char, s: string, b: char, t: string)
    requires a < b
    ensures Less(p + ([a] + s), p + ([b] + t)) && Less(p, p + ([a] + s))
  {
    var x, y := p + ([a] + s), p + ([b] + t);
    if p == [] {
      assert x[0] == a && y[0] == b;
    } else {
      assert x[1..] == p[1..] + ([a] + s) && y[1..] == p[1..] + ([b] + t);
      LessMeans(p[1..], a, s, b, t);
    }
  }

  lemma WhitespaceIs()
    ensures IsWhitespace(' ') && IsWhitespace('\t') && IsWhitespace('\n') && IsWhitespace('\r')
    ensures IsWhitespace(0xA0 as char) && IsWhitespace(0x3000 as char)
    ensures !IsWhitespace('a') && !IsWhitespace('#') && !IsWhitespace(0x200B as char)
  {}
}
