/** Matching a class name against a class attribute, and the visible text of an element. */
module Html {

  function Lower(c: char): char {
    if 'A' <= c <= 'Z' then (c as int + 0x20) as char else c
  }

  /** Only the letters of ASCII have a lower case. */
  lemma LowerIsAscii(c: char)
    ensures 'A' <= c <= 'Z' ==> Lower(c) == "abcdefghijklmnopqrstuvwxyz"[c as int - 'A' as int]
    ensures !('A' <= c <= 'Z') ==> Lower(c) == c
  {
  }

  function LowerAll(s: string): (r: string)
    ensures |r| == |s| && forall i :: 0 <= i < |s| ==> r[i] == Lower(s[i])
  {
    seq(|s|, i requires 0 <= i < |s| => Lower(s[i]))
  }

  /** `s[a..b]` is one of the class names in the attribute: a maximal run without spaces. */
  ghost predicate IsRun(s: string, a: int, b: int) {
    && 0 <= a < b <= |s|
    && ' ' !in s[a..b]
    && (a == 0 || s[a - 1] == ' ')
    && (b == |s| || s[b] == ' ')
  }

  ghost predicate IsMatch(s: string, a: int, b: int, className: string) {
    IsRun(s, a, b) && LowerAll(s[a..b]) == className
  }

  /** The class name so far is `className`, and a zero character follows: the comparison with the
      terminator succeeds, and the pointer runs past the end, unless an earlier run has matched. */
  ghost predicate Overruns(s: string, a: int, b: int, className: string) {
    && 0 <= a <= b < |s|
    && ' ' !in s[a..b]
    && (a == 0 || s[a - 1] == ' ')
    && LowerAll(s[a..b]) == className && s[b] == '\0'
  }

  /** `matcher` is the position of the C++ pointer in the zero-terminated `className`, or -1 for null. */
  method CheckClass(classString: string, className: string) returns (found: bool)
    requires forall a, b :: Overruns(classString, a, b, className) ==> exists c, d :: d < a && IsMatch(classString, c, d, className)
    ensures found <==> exists a, b :: IsMatch(classString, a, b, className)
  {
    var matcher, mismatch := -1, false;
    ghost var start := 0;
    for i := 0 to |classString|
      invariant 0 <= start <= i && (start == 0 || classString[start - 1] == ' ')
      invariant ' ' !in classString[start..i]
      invariant matcher == -1 <==> start == i
      invariant matcher == -1 ==> !mismatch
      invariant mismatch <==> !(LowerAll(classString[start..i]) <= className)
      invariant matcher != -1 && !mismatch ==> matcher == i - start
      invariant forall a, b :: b < start ==> !IsMatch(classString, a, b, className)
    {
      var c := classString[i];
      if c == ' ' {
        NoOtherRun(classString, start, i);
        if matcher != -1 {
          if !mismatch && matcher == |className| {
            assert IsMatch(classString, start, i, className);
            return true;
          }
          matcher, mismatch := -1, false;
        }
        start := i + 1;
      } else {
        c := Lower(c);
        Extend(classString, start, i);
        PrefixGrows(LowerAll(classString[start..i]), c, className);
        if matcher == -1 {
          matcher := 0;
        }
        if !mismatch {
          assert matcher == |className| ==> c != '\0' by {
            assert Overruns(classString, start, i, className) ==> exists a, b :: b < start && IsMatch(classString, a, b, className);
          }
          if matcher < |className| && className[matcher] == c {
            matcher := matcher + 1;
          } else {
            mismatch := true;
          }
        }
      }
    }
    found := !mismatch && matcher != -1 && matcher == |className|;
    NoOtherRun(classString, start, |classString|);
    assert found ==> IsMatch(classString, start, |classString|, className);
  }

  /** A run that ends no later than the space (or end) at `i` ended before `start`, or is `s[start..i]`. */
  lemma NoOtherRun(s: string, start: int, i: int)
    requires 0 <= start <= i <= |s| && ' ' !in s[start..i] && (start == 0 || s[start - 1] == ' ')
    requires i == |s| || s[i] == ' '
    ensures forall a, b :: IsRun(s, a, b) && b <= i ==> b < start || (a == start && b == i)
  {
    assert forall k :: start <= k < i ==> s[k] in s[start..i];
    forall a, b | IsRun(s, a, b) && start <= b <= i ensures a == start && b == i {
      assert forall k :: a <= k < b ==> s[k] in s[a..b];
    }
  }

  lemma PrefixGrows(run: string, c: char, name: string)
    ensures run + [c] <= name <==> run <= name && |run| < |name| && name[|run|] == c
  {
    if run <= name && |run| < |name| && name[|run|] == c {
      assert name[..|run| + 1] == run + [c];
    }
  }

  lemma Extend(s: string, start: int, i: int)
    requires 0 <= start <= i < |s|
    ensures LowerAll(s[start..i + 1]) == LowerAll(s[start..i]) + [Lower(s[i])]
    ensures s[start..i + 1] == s[start..i] + [s[i]]
  {
  }

  // ---- visible text ----

  datatype Node = Text(text: string) | Element(children: seq<Node>)

  predicate IsBlank(c: char) {
    c == ' ' || c == '\t' || c == '\n' || c == '\r'
  }

  ghost function Flatten(nodes: seq<Node>): string {
    if nodes == [] then "" else Flatten(nodes[..|nodes| - 1]) + TextOf(nodes[|nodes| - 1])
  }

  ghost function TextOf(node: Node): string {
    match node
    case Text(text) => text
    case Element(children) => Flatten(children)
  }

  lemma FlattenStep(before: string, nodes: seq<Node>, i: nat)
    requires i < |nodes|
    ensures before + Flatten(nodes[..i + 1]) == (before + Flatten(nodes[..i])) + TextOf(nodes[i])
  {
    assert nodes[..i + 1][..i] == nodes[..i];
  }

  /** The words of a text, and their arrangement with single spaces: what the result must be. */
  ghost function Words(s: string): seq<string> {
    if s == "" then [] else AddChar(Words(s[..|s| - 1]), |s| == 1 || IsBlank(s[|s| - 2]), s[|s| - 1])
  }

  /** A blank ends a word, any other character starts a new one or continues the last. */
  ghost function AddChar(words: seq<string>, ended: bool, c: char): seq<string> {
    if IsBlank(c) then words
    else if ended || words == [] then words + [[c]]
    else words[..|words| - 1] + [words[|words| - 1] + [c]]
  }

  ghost function Join(words: seq<string>): string {
    if words == [] then "" else Join(words[..|words| - 1]) + (if |words| == 1 then "" else " ") + words[|words| - 1]
  }

  /** The collector's `result` after some text: the words so far, and a space if blanks followed them. */
  ghost function Collected(s: string): string {
    Join(Words(s)) + if s != "" && IsBlank(s[|s| - 1]) && Words(s) != [] then " " else ""
  }

  lemma {:induction false} WordsAreSolid(s: string)
    ensures forall w <- Words(s) :: w != "" && !IsBlank(w[|w| - 1])
    ensures s != "" && !IsBlank(s[|s| - 1]) ==> Words(s) != []
  {
    if s != "" {
      WordsAreSolid(s[..|s| - 1]);
      AddCharSolid(Words(s[..|s| - 1]), |s| == 1 || IsBlank(s[|s| - 2]), s[|s| - 1]);
    }
  }

  lemma AddCharSolid(words: seq<string>, ended: bool, c: char)
    requires forall w <- words :: w != "" && !IsBlank(w[|w| - 1])
    ensures forall w <- AddChar(words, ended, c) :: w != "" && !IsBlank(w[|w| - 1])
    ensures !IsBlank(c) ==> AddChar(words, ended, c) != []
  {
    if !IsBlank(c) && !ended && words != [] {
      assert forall w <- words[..|words| - 1] :: w in words;
    }
  }

  lemma JoinAppends(words: seq<string>, w: string)
    ensures Join(words + [w]) == Join(words) + (if words == [] then "" else " ") + w
  {
    assert (words + [w])[..|words|] == words;
  }

  lemma JoinGrows(front: seq<string>, last: string, c: char)
    ensures Join(front + [last + [c]]) == Join(front + [last]) + [c]
  {
    JoinAppends(front, last);
    JoinAppends(front, last + [c]);
    var head := Join(front) + (if front == [] then "" else " ");
    assert head + (last + [c]) == (head + last) + [c];
  }

  lemma JoinEnds(words: seq<string>)
    requires words != [] && words[|words| - 1] != ""
    ensures Join(words) != "" && Join(words)[|Join(words)| - 1] == words[|words| - 1][|words[|words| - 1]| - 1]
  {
  }

  function Feed(result: string, c: char): string {
    if IsBlank(c) then (if result != "" && result[|result| - 1] != ' ' then result + " " else result)
    else result + [c]
  }

  lemma FeedLetter(s: string, c: char)
    requires !IsBlank(c)
    ensures Collected(s) + [c] == Collected(s + [c])
  {
    var words, ended := Words(s), s == "" || IsBlank(s[|s| - 1]);
    WordsStep(s, c);
    LetterAdds(words, ended, c);
    assert Collected(s + [c]) == Join(AddChar(words, ended, c)) + "";
    assert Collected(s) == Join(words) + if words != [] && ended then " " else "";
  }

  lemma BlankEnding(s: string)
    ensures Collected(s) != "" && Collected(s)[|Collected(s)| - 1] != ' ' <==> s != "" && Words(s) != [] && !IsBlank(s[|s| - 1])
  {
    var words, tail := Words(s), if s != "" && IsBlank(s[|s| - 1]) && Words(s) != [] then " " else "";
    assert Collected(s) == Join(words) + tail;
    WordsAreSolid(s);
    if words == [] {
      assert Collected(s) == "";
    } else if tail == "" {
      assert words[|words| - 1] in words;
      JoinEnds(words);
      assert Collected(s) == Join(words);
    } else {
      assert Collected(s)[|Collected(s)| - 1] == ' ';
    }
  }

  lemma FeedBlank(s: string, c: char)
    requires IsBlank(c)
    ensures Collected(s + [c]) == Join(Words(s)) + if Words(s) == [] then "" else " "
  {
    assert (s + [c])[..|s|] == s;
  }

  lemma FeedCollects(s: string, c: char)
    ensures Feed(Collected(s), c) == Collected(s + [c])
  {
    if IsBlank(c) {
      FeedBlank(s, c);
      BlankEnding(s);
    } else {
      FeedLetter(s, c);
    }
  }

  class Collector {
    var result: string

    constructor ()
      ensures result == ""
    {
      result := "";
    }

    method CollectText(text: string, ghost before: string)
      requires result == Collected(before)
      modifies this
      ensures result == Collected(before + text)
    {
      assert before + text[..0] == before;
      for k := 0 to |text|
        invariant result == Collected(before + text[..k])
      {
        assert before + text[..k + 1] == (before + text[..k]) + [text[k]];
        FeedCollects(before + text[..k], text[k]);
        ghost var fed := Feed(result, text[k]);
        var c := text[k];
        if c == '\t' || c == '\n' || c == '\r' {
          c := ' ';
        }
        if c == ' ' {
          if result != "" && result[|result| - 1] != ' ' {
            result := result + [c];
          }
        } else {
          result := result + [c];
        }
        assert result == fed;
      }
      assert text[..|text|] == text;
    }

    method Collect(nodes: seq<Node>, ghost before: string)
      requires result == Collected(before)
      modifies this
      ensures result == Collected(before + Flatten(nodes))
      decreases nodes
    {
      assert before + Flatten(nodes[..0]) == before;
      for i := 0 to |nodes|
        invariant result == Collected(before + Flatten(nodes[..i]))
      {
        FlattenStep(before, nodes, i);
        if nodes[i].Text? {
          CollectText(nodes[i].text, before + Flatten(nodes[..i]));
        } else {
          Collect(nodes[i].children, before + Flatten(nodes[..i]));
        }
      }
      assert nodes[..|nodes|] == nodes;
    }
  }

  /** The words of the text below the element, in order, separated by single spaces. */
  method GetCleanText(element: Node) returns (text: string)
    requires element.Element?
    ensures text == Join(Words(Flatten(element.children)))
  {
    var collector := new Collector();
    collector.Collect(element.children, "");
    text := collector.result;
    ghost var flat := Flatten(element.children);
    assert "" + flat == flat;
    WordsAreSolid(flat);
    if Words(flat) != [] {
      assert Words(flat)[|Words(flat)| - 1] in Words(flat);
      JoinEnds(Words(flat));
    }
    if text != "" && text[|text| - 1] == ' ' {
      text := text[..|text| - 1];
    }
  }

  /** The result, character by character: a blank, tab, line feed or carriage return adds nothing; any other
      character is added, after a space if such a one came before it and there was text already. */
  lemma CleanTextSteps(s: string, c: char)
    ensures Join(Words("")) == ""
    ensures c in " \t\n\r" ==> Join(Words(s + [c])) == Join(Words(s))
    ensures c !in " \t\n\r" ==>
              Join(Words(s + [c])) ==
              Join(Words(s)) + (if Join(Words(s)) != "" && s != "" && s[|s| - 1] in " \t\n\r" then " " else "") + [c]
  {
    BlanksAre(c);
    WordsStep(s, c);
    if !IsBlank(c) {
      if s != "" {
        BlanksAre(s[|s| - 1]);
      }
      LetterAdds(Words(s), s == "" || IsBlank(s[|s| - 1]), c);
      EmptyIff(s);
    }
  }

  lemma WordsStep(s: string, c: char)
    ensures Words(s + [c]) == AddChar(Words(s), s == "" || IsBlank(s[|s| - 1]), c)
  {
    assert (s + [c])[..|s|] == s;
  }

  lemma BlanksAre(c: char)
    ensures IsBlank(c) <==> c in " \t\n\r"
  {
  }

  lemma LetterAdds(words: seq<string>, ended: bool, c: char)
    requires !IsBlank(c)
    ensures Join(AddChar(words, ended, c)) == Join(words) + (if words != [] && ended then " " else "") + [c]
  {
    if ended || words == [] {
      JoinAppends(words, [c]);
    } else {
      assert words == words[..|words| - 1] + [words[|words| - 1]];
      JoinGrows(words[..|words| - 1], words[|words| - 1], c);
      assert Join(words) + "" == Join(words);
    }
  }

  lemma EmptyIff(s: string)
    ensures Join(Words(s)) == "" <==> Words(s) == []
  {
    WordsAreSolid(s);
    if Words(s) != [] {
      assert Words(s)[|Words(s)| - 1] in Words(s);
      JoinEnds(Words(s));
    }
  }
}
