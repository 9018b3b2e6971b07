/** The words of a text: its maximal runs of kept characters. */
module Words {
  function WordsOf(s: string, keep: char -> bool): seq<string> {
    if s == "" then []
    else if !keep(s[0]) then WordsOf(s[1..], keep)
    else if Begins(s[1..], keep) then Glued(s[0], WordsOf(s[1..], keep))
    else [[s[0]]] + WordsOf(s[1..], keep)
  }

  predicate Begins(s: string, keep: char -> bool) {
    s != "" && keep(s[0])
  }

  /** The character belongs to the first word. */
  function Glued(c: char, words: seq<string>): seq<string> {
    if words == [] then [[c]] else [[c] + words[0]] + words[1..]
  }

  function Joined(words: seq<string>, separator: string): string {
    if words == [] then "" else if |words| == 1 then words[0] else words[0] + (separator + Joined(words[1..], separator))
  }

  predicate AllKept(word: string, keep: char -> bool) {
    forall i :: 0 <= i < |word| ==> keep(word[i])
  }

  predicate AreWords(words: seq<string>, keep: char -> bool) {
    forall i :: 0 <= i < |words| ==> words[i] != "" && AllKept(words[i], keep)
  }

  lemma {:induction false} WordsAreWords(s: string, keep: char -> bool)
    ensures AreWords(WordsOf(s, keep), keep)
    ensures Begins(s, keep) ==> WordsOf(s, keep) != []
  {
    if s != "" {
      WordsAreWords(s[1..], keep);
    }
  }

  lemma {:induction false} WordsOfOne(word: string, rest: string, keep: char -> bool)
    requires word != "" && AllKept(word, keep) && !Begins(rest, keep)
    ensures WordsOf(word + rest, keep) == [word] + WordsOf(rest, keep)
  {
    var all := word + rest;
    assert all[1..] == word[1..] + rest;
    if |word| == 1 {
      assert all[1..] == rest && word == [word[0]];
    } else {
      WordsOfOne(word[1..], rest, keep);
      assert Begins(all[1..], keep);
      assert Glued(word[0], [word[1..]] + WordsOf(rest, keep)) == [word] + WordsOf(rest, keep) by {
        assert [word[0]] + word[1..] == word;
        assert ([word[1..]] + WordsOf(rest, keep))[1..] == WordsOf(rest, keep);
      }
    }
  }

  /** Cutting joined words at the separators gives the words back. */
  lemma {:induction false} WordsOfJoined(words: seq<string>, separator: char, keep: char -> bool)
    requires AreWords(words, keep) && !keep(separator)
    ensures WordsOf(Joined(words, [separator]), keep) == words
  {
    if |words| == 1 {
      WordsOfOne(words[0], "", keep);
      assert words[0] + "" == words[0];
    } else if |words| > 1 {
      var rest := Joined(words[1..], [separator]);
      WordsOfJoined(words[1..], separator, keep);
      assert ([separator] + rest)[1..] == rest;
      WordsOfOne(words[0], [separator] + rest, keep);
    }
  }

  /** Joined words begin and end with a kept character, and every other one is a single separator between two kept ones. */
  lemma {:induction false} JoinedShape(words: seq<string>, separator: char, keep: char -> bool)
    requires AreWords(words, keep) && !keep(separator)
    ensures var s := Joined(words, [separator]);
            && (s == "" <==> words == [])
            && (s != "" ==> keep(s[0]) && keep(s[|s| - 1]))
            && (forall i :: 0 <= i < |s| && !keep(s[i]) ==> s[i] == separator && 0 < i < |s| - 1 && keep(s[i - 1]) && keep(s[i + 1]))
  {
    if |words| > 1 {
      var first, rest := words[0], Joined(words[1..], [separator]);
      JoinedShape(words[1..], separator, keep);
      var s := first + ([separator] + rest);
      assert forall k :: 0 <= k < |first| ==> s[k] == first[k] && keep(s[k]);
      forall i | 0 <= i < |s| && !keep(s[i])
        ensures s[i] == separator && 0 < i < |s| - 1 && keep(s[i - 1]) && keep(s[i + 1])
      {
        if i == |first| {
          assert s[i - 1] == first[i - 1] && s[i + 1] == rest[0];
        } else if i > |first| {
          var k := i - |first| - 1;
          assert s[i] == rest[k] && s[i - 1] == rest[k - 1] && s[i + 1] == rest[k + 1];
        }
      }
    }
  }
}
