/** The pure helpers of src/lib/utils.ts. */
module Utils {

  /** A JavaScript value that may be missing, null, an array, or a single element. */
  datatype JsValue<T> = Undefined | Null | Array(items: seq<T>) | Single(value: T)

  /** `ensureArray`: missing and null become the empty list, an array is kept, one value is wrapped. */
  function EnsureArray<T>(v: JsValue<T>): (r: seq<T>)
    ensures v.Undefined? || v.Null? ==> r == []
    ensures v.Array? ==> r == v.items
    ensures v.Single? ==> r == [v.value]
  {
    match v
    case Undefined => []
    case Null => []
    case Array(items) => items
    case Single(x) => [x]
  }

  // ---------------------------------------------------------------- getInitials

  /** `s.split(" ")`: the pieces between single spaces, empty pieces included; "" gives [""]. */
  function Split(s: string): (r: seq<string>)
    ensures |r| >= 1
    decreases |s|
  {
    if s == [] then [""]
    else
      var rest := Split(s[1..]);
      if s[0] == ' ' then [""] + rest else [[s[0]] + rest[0]] + rest[1..]
  }

  /** `words.map((n) => n[0]).join("")`: an empty word's `n[0]` is undefined, which `join` writes as nothing. */
  function Initials(words: seq<string>): string
    decreases |words|
  {
    if words == [] then ""
    else (if words[0] == "" then "" else [words[0][0]]) + Initials(words[1..])
  }

  function UpperChar(c: char): char
  {
    if 'a' <= c <= 'z' then (c as int - 32) as char else c
  }

  /** `toUpperCase`, on the ASCII letters. */
  function Upper(s: string): (r: string)
    ensures |r| == |s| && forall i :: 0 <= i < |s| ==> r[i] == UpperChar(s[i])
  {
    seq(|s|, i requires 0 <= i < |s| => UpperChar(s[i]))
  }

  function GetInitials(name: string): string
  {
    Upper(Initials(Split(name)))
  }

  /** Reference definition: the characters that are not spaces and start the string or follow a space. */
  function WordStarts(s: string, afterSpace: bool): string
    decreases |s|
  {
    if s == [] then ""
    else (if s[0] != ' ' && afterSpace then [s[0]] else "") + WordStarts(s[1..], s[0] == ' ')
  }

  function CountNonEmpty(words: seq<string>): nat
    decreases |words|
  {
    if words == [] then 0 else (if words[0] == "" then 0 else 1) + CountNonEmpty(words[1..])
  }

  /** The first word of the split starts with the string's first character unless that is a
      space; the initials of the other words are the word starts after that character. */
  lemma {:induction false} SplitWordStarts(s: string)
    ensures Initials(Split(s)) == WordStarts(s, true)
    ensures s != [] ==> Initials(Split(s)[1..]) == WordStarts(s[1..], s[0] == ' ')
    decreases |s|
  {
    if s != [] {
      var rest := Split(s[1..]);
      SplitWordStarts(s[1..]);
      if s[0] == ' ' {
        assert Split(s) == [""] + rest;
        assert Split(s)[1..] == rest;
      } else {
        var w := [s[0]] + rest[0];
        assert Split(s) == [w] + rest[1..];
        assert Split(s)[1..] == rest[1..];
        assert Initials(Split(s)) == [s[0]] + Initials(rest[1..]);
        if s[1..] == [] {
          assert rest == [""];
        } else {
          assert rest[0] == "" <==> s[1] == ' ';
          assert Initials(rest) == (if rest[0] == "" then "" else [rest[0][0]]) + Initials(rest[1..]);
          assert WordStarts(s[1..], false) == WordStarts(s[1..][1..], s[1] == ' ');
        }
      }
    }
  }

  /** `getInitials` takes, in order and upper-cased, the first character of every word of its
      input, where words are separated by spaces. */
  lemma GetInitialsSpec(name: string)
    ensures GetInitials(name) == Upper(WordStarts(name, true))
  {
    SplitWordStarts(name);
  }

  lemma {:induction false} InitialsCount(words: seq<string>)
    ensures |Initials(words)| == CountNonEmpty(words)
    decreases |words|
  {
    if words != [] {
      InitialsCount(words[1..]);
    }
  }

  /** One initial per non-empty word; the empty name has none. */
  lemma GetInitialsLength(name: string)
    ensures |GetInitials(name)| == CountNonEmpty(Split(name))
    ensures GetInitials("") == ""
  {
    InitialsCount(Split(name));
  }
}
