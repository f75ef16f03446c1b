/** The `getInitials` helper that four components define identically
    (`name.split(' ').map(word => word[0]).join('').toUpperCase().slice(0, 2)`),
    and the avatar text built from it, with `'U'` standing in for a missing name. */
module Initials {
  import opened Common
  import opened JsText

  /** `word[0]`: the first character, or `undefined` for the empty word. */
  function FirstChar(word: string): (r: Option<char>)
    ensures r.None? <==> word == ""
    ensures r.Some? ==> r.value == word[0]
  {
    if word == "" then None else Some(word[0])
  }

  /** `words.map(word => word[0])`. */
  function FirstChars(words: seq<string>): (r: seq<Option<char>>)
    ensures |r| == |words|
    ensures forall i :: 0 <= i < |words| ==> r[i] == FirstChar(words[i])
  {
    seq(|words|, i requires 0 <= i < |words| => FirstChar(words[i]))
  }

  /** `xs.join('')`, where an `undefined` element joins as the empty string. */
  function JoinChars(xs: seq<Option<char>>): (r: string)
    ensures |r| <= |xs|
    ensures forall i :: 0 <= i < |r| ==> Some(r[i]) in xs
    ensures r == "" <==> forall k :: 0 <= k < |xs| ==> xs[k].None?
  {
    if xs == [] then ""
    else (if xs[0].Some? then [xs[0].value] else "") + JoinChars(xs[1..])
  }

  function GetInitials(name: string): (r: string)
    ensures |r| <= 2
    ensures r == Prefix(ToUpper(WordStarts(name)), 2)
  {
    WordStartsBySplit(name);
    Prefix(ToUpper(JoinChars(FirstChars(Split(name)))), 2)
  }

  // ---------------------------------------------------------------------
  // Reference definitions: a left-to-right scan for word starts, and the
  // list of non-empty words.

  /** The characters of `s` that begin a word: a non-space character that is
      the first of `s` (when `atBoundary`) or follows a space. */
  function StartsAfter(s: string, atBoundary: bool): string {
    if s == [] then ""
    else (if s[0] != ' ' && atBoundary then [s[0]] else "") + StartsAfter(s[1..], s[0] == ' ')
  }

  function WordStarts(s: string): string {
    StartsAfter(s, true)
  }

  predicate AllSpaces(s: string) {
    forall i :: 0 <= i < |s| ==> s[i] == ' '
  }

  /** The words of `ws` that are not empty, in order. */
  function NonEmptyWords(ws: seq<string>): (r: seq<string>)
    ensures forall k :: 0 <= k < |r| ==> r[k] != ""
  {
    if ws == [] then []
    else (if ws[0] != "" then [ws[0]] else []) + NonEmptyWords(ws[1..])
  }

  /** The first character of each word. */
  function Heads(ws: seq<string>): (r: string)
    requires forall k :: 0 <= k < |ws| ==> ws[k] != ""
    ensures |r| == |ws|
    ensures forall k :: 0 <= k < |ws| ==> r[k] == ws[k][0]
  {
    seq(|ws|, k requires 0 <= k < |ws| => ws[k][0])
  }

  // ---------------------------------------------------------------------
  // Lemmas

  /** A single element joins to its character, or to nothing when it is
      `undefined`. */
  lemma JoinCharsSingle(x: Option<char>)
    ensures JoinChars([x]) == if x.Some? then [x.value] else ""
  {
  }

  /** Joining distributes over concatenation: with `JoinCharsSingle` this
      fixes `join('')` as every defined element's character, in order. */
  lemma {:induction false} JoinCharsAppend(xs: seq<Option<char>>, ys: seq<Option<char>>)
    ensures JoinChars(xs + ys) == JoinChars(xs) + JoinChars(ys)
    decreases |xs|
  {
    if xs == [] {
      assert xs + ys == ys;
    } else {
      JoinCharsAppend(xs[1..], ys);
      assert (xs + ys)[1..] == xs[1..] + ys;
    }
  }

  lemma JoinCharsCons(x: Option<char>, xs: seq<Option<char>>)
    ensures JoinChars([x] + xs) == (if x.Some? then [x.value] else "") + JoinChars(xs)
  {
    assert ([x] + xs)[1..] == xs;
  }

  /** Mapping `word[0]` over one word followed by more words and joining:
      the word's first character, if it has one, then the rest's. */
  lemma HeadsOfCons(w: string, ws: seq<string>)
    ensures JoinChars(FirstChars([w] + ws)) == (if w == "" then "" else [w[0]]) + JoinChars(FirstChars(ws))
  {
    assert FirstChars([w] + ws) == [FirstChar(w)] + FirstChars(ws);
    JoinCharsCons(FirstChar(w), FirstChars(ws));
  }

  /** The split-map-join pipeline picks out exactly the word starts of the
      scan: for the whole string, and, for the words after the first, the
      word starts that the scan finds when not at a boundary. */
  lemma {:induction false} HeadsOfSplit(s: string)
    ensures JoinChars(FirstChars(Split(s))) == StartsAfter(s, true)
    ensures JoinChars(FirstChars(Split(s)[1..])) == StartsAfter(s, false)
  {
    if s == [] {
      HeadsOfCons("", []);
    } else {
      HeadsOfSplit(s[1..]);
      var rest := Split(s[1..]);
      if s[0] == ' ' {
        assert Split(s) == [""] + rest;
        HeadsOfCons("", rest);
        assert Split(s)[1..] == rest;
      } else {
        var w := [s[0]] + rest[0];
        assert Split(s) == [w] + rest[1..];
        HeadsOfCons(w, rest[1..]);
        assert Split(s)[1..] == rest[1..];
      }
    }
  }

  lemma WordStartsBySplit(name: string)
    ensures JoinChars(FirstChars(Split(name))) == WordStarts(name)
  {
    HeadsOfSplit(name);
  }

  /** A name has no word start exactly when it is all spaces (or empty). */
  lemma {:induction false} WordStartsEmpty(s: string)
    ensures WordStarts(s) == "" <==> AllSpaces(s)
  {
    if s != [] {
      if s[0] == ' ' {
        WordStartsEmpty(s[1..]);
        assert AllSpaces(s) <==> AllSpaces(s[1..]) by {
          assert forall i :: 1 <= i < |s| ==> s[i] == s[1..][i - 1];
        }
      } else {
        assert WordStarts(s)[0] == s[0];
      }
    }
  }

  /** `getInitials` yields no character exactly for a name made only of
      spaces, the empty name included: there is no fallback inside it. */
  lemma InitialsEmptyIff(name: string)
    ensures GetInitials(name) == "" <==> AllSpaces(name)
  {
    WordStartsEmpty(name);
  }

  lemma {:induction false} FirstCharsOfWords(ws: seq<string>)
    ensures JoinChars(FirstChars(ws)) == Heads(NonEmptyWords(ws))
  {
    if ws != [] {
      FirstCharsOfWords(ws[1..]);
      assert FirstChars(ws) == [FirstChar(ws[0])] + FirstChars(ws[1..]);
      JoinCharsCons(FirstChar(ws[0]), FirstChars(ws[1..]));
      var ne := NonEmptyWords(ws[1..]);
      if ws[0] != "" {
        assert NonEmptyWords(ws) == [ws[0]] + ne;
        assert Heads([ws[0]] + ne) == [ws[0][0]] + Heads(ne);
      } else {
        assert NonEmptyWords(ws) == ne;
      }
    }
  }

  /** For a name made of the words `ws` joined by single spaces, the initials
      are the upper-cased first characters of the non-empty words, in order,
      at most two of them. */
  lemma InitialsOfWords(ws: seq<string>)
    requires |ws| >= 1
    requires forall k :: 0 <= k < |ws| ==> NoSpace(ws[k])
    ensures var r := GetInitials(JoinSpaces(ws)); var ne := NonEmptyWords(ws);
      && |r| == (if |ne| < 2 then |ne| else 2)
      && forall k :: 0 <= k < |r| ==> r[k] == UpperChar(ne[k][0])
  {
    SplitJoin(ws);
    FirstCharsOfWords(ws);
  }

  /** The avatar text `name ? getInitials(name) : 'U'` for a name that may be
      missing. */
  function AvatarText(name: Option<string>): (r: string)
    ensures |r| <= 2
    ensures !Truthy(name) ==> r == "U"
    ensures Truthy(name) ==> r == Prefix(ToUpper(WordStarts(name.value)), 2)
    ensures r == "" <==> Truthy(name) && AllSpaces(name.value)
  {
    if Truthy(name) then
      InitialsEmptyIff(name.value);
      GetInitials(name.value)
    else
      "U"
  }
}
