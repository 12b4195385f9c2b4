/** Splitting text at a separator and joining it again. */
module TextSplit {

  /** Split at every separator; the empty text has one empty entry. */
  function Split(text: string, separator: char): (parts: seq<string>)
    ensures |parts| > 0
  {
    if text == "" then [""]
    else
      var rest := Split(text[1..], separator);
      if text[0] == separator then [""] + rest else [[text[0]] + rest[0]] + rest[1..]
  }

  function Join(parts: seq<string>, separator: char): string {
    if parts == [] then "" else if |parts| == 1 then parts[0] else parts[0] + [separator] + Join(parts[1..], separator)
  }

  lemma {:induction false} SplitWord(word: string, rest: string, separator: char)
    requires separator !in word
    ensures Split(word + [separator] + rest, separator) == [word] + Split(rest, separator)
    ensures Split(word, separator) == [word]
  {
    var text := word + [separator] + rest;
    if word == "" {
      assert text == [separator] + rest && text[1..] == rest;
    } else {
      assert text[1..] == word[1..] + [separator] + rest;
      SplitWord(word[1..], rest, separator);
      assert word == [word[0]] + word[1..];
    }
  }

  lemma {:induction false} SplitJoin(parts: seq<string>, separator: char)
    requires parts != [] && forall p <- parts :: separator !in p
    ensures Split(Join(parts, separator), separator) == parts
  {
    SplitWord(parts[0], Join(parts[1..], separator), separator);
    if |parts| > 1 {
      SplitJoin(parts[1..], separator);
      assert parts == [parts[0]] + parts[1..];
    } else {
      assert parts == [parts[0]];
    }
  }
}
