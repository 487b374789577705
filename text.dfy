/** String helpers with the meaning of the Python `str` methods the handlers use. */
module Text {
  import opened Common

  /** ASCII lower-casing of one character. */
  function LowerChar(c: char): char {
    if 'A' <= c <= 'Z' then (c as int + 32) as char else c
  }

  /** `str.lower()` restricted to ASCII letters. */
  function Lower(s: string): string {
    seq(|s|, i requires 0 <= i < |s| => LowerChar(s[i]))
  }

  /** Lower-casing maps '.' and only '.' to '.', so it keeps a dot-free text dot-free. */
  lemma LowerKeepsDotFree(s: string)
    requires '.' !in s
    ensures '.' !in Lower(s)
  {
    forall i | 0 <= i < |s| ensures Lower(s)[i] != '.' {
      assert s[i] != '.';
    }
  }

  /** Lower-casing twice is lower-casing once. */
  lemma LowerIdempotent(s: string)
    ensures Lower(Lower(s)) == Lower(s)
  {
  }

  /** `str.rfind(c)`: the position of the last occurrence of `c`, if any. */
  function LastIndexOf(s: string, c: char): (r: Option<nat>)
    ensures r.None? <==> c !in s
    ensures r.Some? ==> r.value < |s| && s[r.value] == c && c !in s[r.value + 1..]
  {
    if s == [] then None
    else if s[|s| - 1] == c then Some(|s| - 1)
    else
      var r := LastIndexOf(s[..|s| - 1], c);
      assert s == s[..|s| - 1] + [s[|s| - 1]];
      r
  }

  /** `str.find(c)`: the position of the first occurrence of `c`, if any. */
  function IndexOf(s: string, c: char): (r: Option<nat>)
    ensures r.None? <==> c !in s
    ensures r.Some? ==> r.value < |s| && s[r.value] == c && c !in s[..r.value]
  {
    if s == [] then None
    else if s[0] == c then Some(0)
    else
      match IndexOf(s[1..], c)
      case None => None
      case Some(i) => assert s[..i + 1] == [s[0]] + s[1..][..i]; Some(i + 1)
  }

  /** `s.rsplit(c, 1)[1]`: the text after the last `c`; `None` where Python
      raises IndexError because `c` does not occur. */
  function AfterLast(s: string, c: char): (r: Option<string>)
    ensures r.None? <==> c !in s
    ensures r.Some? ==> c !in r.value && |r.value| < |s|
    ensures r.Some? ==> s == s[..|s| - |r.value| - 1] + [c] + r.value
  {
    match LastIndexOf(s, c)
    case None => None
    case Some(i) => assert s == s[..i] + [c] + s[i + 1..]; Some(s[i + 1..])
  }

  /** The last `c` of `prefix + [c] + suffix` is the one between them
      whenever `suffix` holds no `c`. */
  lemma {:induction false} LastIndexOfJoin(prefix: string, c: char, suffix: string)
    requires c !in suffix
    ensures LastIndexOf(prefix + [c] + suffix, c) == Some(|prefix|)
  {
    var s := prefix + [c] + suffix;
    var i := LastIndexOf(s, c).value;
    assert s[|prefix|] == c;
    assert s[i + 1..] == suffix;
  }

  /** The text after the last `c` of `prefix + [c] + suffix` is `suffix`
      whenever `suffix` holds no `c`. */
  lemma {:induction false} AfterLastOfJoin(prefix: string, c: char, suffix: string)
    requires c !in suffix
    ensures AfterLast(prefix + [c] + suffix, c) == Some(suffix)
  {
    var s := prefix + [c] + suffix;
    var i := LastIndexOf(s, c).value;
    assert s[|prefix|] == c;
    assert s[i + 1..] == suffix;
  }

  /** `s.split(c)[1]`: the text between the first `c` and the next one (or the
      end of `s`). Python raises IndexError when `c` does not occur. */
  function SecondField(s: string, c: char): (r: string)
    requires c in s
    ensures c !in r
    ensures var i := IndexOf(s, c).value;
      r <= s[i + 1..] && (|r| == |s| - i - 1 || s[i + 1 + |r|] == c)
  {
    var i := IndexOf(s, c).value;
    var rest := s[i + 1..];
    match IndexOf(rest, c)
    case None => rest
    case Some(j) => rest[..j]
  }

  /** The field after the first separator of `head + [c] + body` is `body`
      when neither part holds a separator. */
  lemma {:induction false} SecondFieldOfJoin(head: string, c: char, body: string)
    requires c !in head && c !in body
    ensures SecondField(head + [c] + body, c) == body
  {
    var s := head + [c] + body;
    assert s[|head|] == c;
    var i := IndexOf(s, c).value;
    assert s[i + 1..] == body;
  }
}
