/** The header's avatar initials. */
module Header {
  import opened Wrappers
  import opened JsText

  /** The exception `getInitials` raises: a name of white space only has no first word, and reading a
      character of the missing word throws a TypeError. */
  datatype InitialsError = NoFirstWord

  /** `getInitials(name)`: "" for a missing or empty name; otherwise the words are the non-empty
      pieces of the trimmed name split on single spaces, and the initials are the upper-cased first
      character of the first word, followed by that of the second word when there is one. */
  function GetInitials(name: Option<string>): (r: Result<string, InitialsError>)
    ensures r.Success? ==> |r.value| <= 2
    ensures r == Success("") <==> name.None? || name.value == ""
  {
    if name.None? || name.value == "" then Success("")
    else
      var words := Words(Trim(name.value));
      if |words| == 1 then Success(ToUpper([words[0][0]]))
      else if |words| == 0 then Failure(NoFirstWord)
      else Success(ToUpper([words[0][0], words[1][0]]))
  }

  /** Trim of a string that neither starts nor ends with white space is the string itself. */
  lemma TrimKeeps(s: string)
    requires s != [] && !IsWhitespace(s[0]) && !IsWhitespace(s[|s| - 1])
    ensures Trim(s) == s
  {
    assert TrimStart(s) == s;
    assert TrimEnd(s) == s;
  }

  /** The first word of a string that does not start with a space begins with its first character. */
  lemma WordsHead(t: string)
    requires t != [] && t[0] != ' '
    ensures Words(t) != [] && Words(t)[0][0] == t[0]
  {
    var parts := Split(t, ' ');
    assert parts[0] == [t[0]] + Split(t[1..], ' ')[0];
    assert NonEmpty(parts) == [parts[0]] + NonEmpty(parts[1..]);
  }

  /** `getInitials` throws exactly for a non-empty name made only of white space. */
  lemma InitialsFailOnBlankName(name: Option<string>)
    ensures GetInitials(name).Failure?
        <==> name.Some? && name.value != "" && forall i :: 0 <= i < |name.value| ==> IsWhitespace(name.value[i])
  {
    if name.Some? && name.value != "" {
      var t := Trim(name.value);
      WordsEmpty(t);
      if t != [] {
        assert !IsWhitespace(t[0]);
        assert t[0] != ' ';
      }
    }
  }

  /** The first initial is the upper-cased first non-white-space character of the name. */
  lemma FirstInitial(s: string, k: nat)
    requires k < |s| && !IsWhitespace(s[k])
    requires forall j :: 0 <= j < k ==> IsWhitespace(s[j])
    ensures GetInitials(Some(s)).Success?
    ensures GetInitials(Some(s)).value[0] == ToUpperAscii(s[k])
  {
    var u := TrimStart(s);
    assert |u| == |s| - k;
    var t := Trim(s);
    assert t == TrimEnd(u);
    assert t != [] && t[0] == s[k];
    assert t[0] != ' ';
    WordsHead(t);
  }

  /** Joining with a space the first character of a word and what follows it. */
  lemma {:induction false} JoinEnds(ws: seq<string>)
    requires |ws| >= 1 && forall i :: 0 <= i < |ws| ==> ws[i] != []
    ensures Join(ws, ' ') != []
    ensures Join(ws, ' ')[0] == ws[0][0]
    ensures Join(ws, ' ')[|Join(ws, ' ')| - 1] == ws[|ws| - 1][|ws[|ws| - 1]| - 1]
    decreases |ws|
  {
    if |ws| > 1 {
      JoinEnds(ws[1..]);
      assert ws[1..][|ws[1..]| - 1] == ws[|ws| - 1];
    }
  }

  lemma {:induction false} NonEmptyKeeps(parts: seq<string>)
    requires forall i :: 0 <= i < |parts| ==> parts[i] != []
    ensures NonEmpty(parts) == parts
  {
    if parts != [] {
      NonEmptyKeeps(parts[1..]);
      assert [parts[0]] + parts[1..] == parts;
    }
  }

  /** Initials of a name written as words separated by single spaces: the first character of the
      first word and, when there is one, of the second, upper-cased; later words are ignored. */
  lemma InitialsOfWords(ws: seq<string>)
    requires |ws| >= 1
    requires forall i :: 0 <= i < |ws| ==> ws[i] != [] && ' ' !in ws[i]
    requires !IsWhitespace(ws[0][0]) && !IsWhitespace(ws[|ws| - 1][|ws[|ws| - 1]| - 1])
    ensures GetInitials(Some(Join(ws, ' ')))
         == Success(ToUpper(if |ws| == 1 then [ws[0][0]] else [ws[0][0], ws[1][0]]))
  {
    var s := Join(ws, ' ');
    JoinEnds(ws);
    TrimKeeps(s);
    SplitJoin(ws, ' ');
    NonEmptyKeeps(ws);
    assert Words(Trim(s)) == ws;
  }

  /** A run of spaces between two words counts as one. */
  lemma RepeatedSpaceIgnored(a: string, b: string)
    requires ' ' !in a
    ensures Words(a + "  " + b) == Words(a + " " + b)
  {
    SplitAtSep(a, " " + b, ' ');
    assert a + "  " + b == a + [' '] + (" " + b);
    SplitAtSep(a, b, ' ');
    assert a + " " + b == a + [' '] + b;
    SplitAtSep("", b, ' ');
    assert "" + [' '] + b == " " + b;
    assert NonEmpty([a] + ([""] + Split(b, ' '))) == NonEmpty([a] + Split(b, ' ')) by {
      assert ([a] + ([""] + Split(b, ' ')))[1..] == [""] + Split(b, ' ');
      assert ([a] + Split(b, ' '))[1..] == Split(b, ' ');
      assert ([""] + Split(b, ' '))[1..] == Split(b, ' ');
    }
  }

  /** White space around the name does not change its initials. */
  lemma SurroundingSpaceIgnored(s: string)
    requires s != []
    ensures GetInitials(Some(" " + s + " ")) == GetInitials(Some(s))
  {
    TrimPadded(s);
  }

  lemma TrimPadded(s: string)
    ensures Trim(" " + s + " ") == Trim(s)
  {
    var padded := " " + s + " ";
    assert padded[1..] == s + " ";
    assert TrimStart(padded) == TrimStart(s + " ");
    TrimStartThenEnd(s);
  }

  /** Trimming `s + " "` from the front and then from the end trims s. */
  lemma {:induction false} TrimStartThenEnd(s: string)
    ensures TrimEnd(TrimStart(s + " ")) == TrimEnd(TrimStart(s))
    decreases |s|
  {
    if s != [] && IsWhitespace(s[0]) {
      assert (s + " ")[1..] == s[1..] + " ";
      TrimStartThenEnd(s[1..]);
    } else if s != [] {
      assert TrimStart(s + " ") == s + " ";
      assert (s + " ")[..|s + " "| - 1] == s;
    } else {
      assert TrimStart(" ") == "";
    }
  }
}
