/** Status labels shown on task cards: the status `in-progress` is shown as `In Progress`. */
module StatusLabel {

  /** Upper-casing of one character, on ASCII only: `a`..`z` become `A`..`Z`,
      every other character is left as it is. */
  function ToUpper(c: char): (u: char)
    ensures (u != c) <==> 'a' <= c <= 'z'
    ensures 'a' <= c <= 'z' ==> 'A' <= u <= 'Z'
    ensures 'a' <= c <= 'z' ==> u as int - 'A' as int == c as int - 'a' as int
    ensures !('a' <= u <= 'z')
  {
    if 'a' <= c <= 'z' then (c as int - 'a' as int + 'A' as int) as char else c
  }

  /** Position of the first occurrence of `c` in `s`. */
  function IndexOf(s: string, c: char): (i: nat)
    requires c in s
    ensures i < |s| && s[i] == c && c !in s[..i]
  {
    if s[0] == c then 0
    else
      var j := IndexOf(s[1..], c);
      assert s[..j + 1] == [s[0]] + s[1..][..j];
      j + 1
  }

  /** The pieces of `s` between occurrences of `sep`, as `String.prototype.split`
      with a one-character separator gives them: empty pieces are kept, so `n`
      separators always give `n + 1` pieces, and the empty string gives `[""]`. */
  function Split(s: string, sep: char): (pieces: seq<string>)
    ensures |pieces| >= 1
    ensures forall k :: 0 <= k < |pieces| ==> sep !in pieces[k]
    decreases |s|
  {
    if sep !in s then [s]
    else
      var i := IndexOf(s, sep);
      [s[..i]] + Split(s[i + 1..], sep)
  }

  /** The number of characters in all the pieces together. */
  function TotalLength(pieces: seq<string>): nat
  {
    if pieces == [] then 0 else |pieces[0]| + TotalLength(pieces[1..])
  }

  /** The pieces written one after another with `sep` between neighbours, as
      `Array.prototype.join` does: no pieces give the empty string and a
      single piece is returned as it is, with no separator. */
  function Join(pieces: seq<string>, sep: string): (s: string)
    ensures pieces == [] ==> s == ""
    ensures |pieces| == 1 ==> s == pieces[0]
  {
    if |pieces| == 0 then ""
    else if |pieces| == 1 then pieces[0]
    else pieces[0] + sep + Join(pieces[1..], sep)
  }

  /** `n` joined pieces hold their own characters plus `n - 1` separators. */
  lemma {:induction false} JoinLength(pieces: seq<string>, sep: string)
    requires pieces != []
    ensures |Join(pieces, sep)| == TotalLength(pieces) + (|pieces| - 1) * |sep|
    decreases |pieces|
  {
    if |pieces| > 1 {
      JoinLength(pieces[1..], sep);
      assert (|pieces| - 1) * |sep| == (|pieces| - 2) * |sep| + |sep|;
    }
  }

  /** `word.charAt(0).toUpperCase() + word.slice(1)`: the first character
      upper-cased, the rest of the word as it is; the empty word stays empty. */
  function Capitalize(word: string): (r: string)
    ensures |r| == |word|
    ensures |word| > 0 ==> r[0] == ToUpper(word[0])
    ensures forall j :: 0 < j < |word| ==> r[j] == word[j]
  {
    if word == "" then "" else [ToUpper(word[0])] + word[1..]
  }

  /** `words.map(Capitalize)`: one capitalized word per word, in order. */
  function CapitalizeAll(words: seq<string>): (caps: seq<string>)
    ensures |caps| == |words|
    ensures forall k :: 0 <= k < |words| ==> caps[k] == Capitalize(words[k])
  {
    if words == [] then [] else [Capitalize(words[0])] + CapitalizeAll(words[1..])
  }

  /** `formatStatus`: split on `-`, capitalize every piece, join with single
      spaces. The label is as long as the status (each `-` turns into exactly
      one space, so the empty status gives the empty label), and each of its
      characters is the one `LabelAt` names. */
  function FormatStatus(status: string): (text: string)
    ensures |text| == |status|
    ensures forall j :: 0 <= j < |status| ==> text[j] == LabelAt(status, j)
  {
    SplitMapJoinPointwise(status);
    Join(CapitalizeAll(Split(status, '-')), " ")
  }

  /** The character `FormatStatus(status)` holds at position `i`, stated on the
      input alone: a `-` becomes a space, a character that opens a piece is
      upper-cased, any other character is kept. */
  function LabelAt(status: string, i: nat): char
    requires i < |status|
  {
    if status[i] == '-' then ' '
    else if i == 0 || status[i - 1] == '-' then ToUpper(status[i])
    else status[i]
  }

  /** `Join` on a sequence of two or more pieces: the first piece, the
      separator, then the join of the rest. */
  lemma JoinCons(first: string, rest: seq<string>, sep: string)
    requires |rest| >= 1
    ensures Join([first] + rest, sep) == first + sep + Join(rest, sep)
  {
    assert ([first] + rest)[1..] == rest;
  }

  /** Splitting on `sep` and joining back with `sep` gives the string back. */
  lemma {:induction false} SplitThenJoin(s: string, sep: char)
    ensures Join(Split(s, sep), [sep]) == s
    decreases |s|
  {
    if sep in s {
      var i := IndexOf(s, sep);
      var head, tail := s[..i], s[i + 1..];
      var rest := Split(tail, sep);
      assert Split(s, sep) == [head] + rest;
      SplitThenJoin(tail, sep);
      JoinCons(head, rest, [sep]);
      calc {
        Join(Split(s, sep), [sep]);
        Join([head] + rest, [sep]);
        head + [sep] + Join(rest, [sep]);
        head + [sep] + tail;
        { assert s[i] == sep; }
        s;
      }
    }
  }

  /** The first `c` in `a + [c] + b` is the one after `a` when `a` holds no `c`. */
  lemma IndexOfAfterPrefix(a: string, c: char, b: string)
    requires c !in a
    ensures c in a + [c] + b && IndexOf(a + [c] + b, c) == |a|
  {
    var s := a + [c] + b;
    assert s[|a|] == c;
    var i := IndexOf(s, c);
    assert forall k :: 0 <= k < |a| ==> s[k] == a[k];
  }

  /** Splitting `a + [c] + b` on `c`, where `a` holds no `c`, gives `a` and then
      the pieces of `b`. */
  lemma SplitAfterPrefix(a: string, c: char, b: string)
    requires c !in a
    ensures Split(a + [c] + b, c) == [a] + Split(b, c)
  {
    var s := a + [c] + b;
    IndexOfAfterPrefix(a, c, b);
    assert s[..|a|] == a;
    assert s[|a| + 1..] == b;
  }

  /** Joining pieces that hold no `sep` with `sep` and splitting again gives the
      same pieces: `Split` is the inverse of `Join` on such pieces. */
  lemma {:induction false} JoinThenSplit(pieces: seq<string>, sep: char)
    requires |pieces| >= 1
    requires forall k :: 0 <= k < |pieces| ==> sep !in pieces[k]
    ensures Split(Join(pieces, [sep]), sep) == pieces
    decreases |pieces|
  {
    if |pieces| > 1 {
      var rest := pieces[1..];
      assert Join(pieces, [sep]) == pieces[0] + [sep] + Join(rest, [sep]);
      SplitAfterPrefix(pieces[0], sep, Join(rest, [sep]));
      JoinThenSplit(rest, sep);
      assert pieces == [pieces[0]] + rest;
    }
  }

  /** One step of split, map and join: the first piece capitalized, a space,
      then the same for what follows the first `-`. */
  lemma SplitMapJoinUnfold(s: string)
    requires '-' in s
    ensures Join(CapitalizeAll(Split(s, '-')), " ")
         == Capitalize(s[..IndexOf(s, '-')]) + " " + Join(CapitalizeAll(Split(s[IndexOf(s, '-') + 1..], '-')), " ")
  {
    var i := IndexOf(s, '-');
    var rest := Split(s[i + 1..], '-');
    var words := Split(s, '-');
    assert words == [s[..i]] + rest;
    assert words[1..] == rest;
    var caps := CapitalizeAll(words);
    assert caps == [Capitalize(s[..i])] + CapitalizeAll(rest);
    assert caps[1..] == CapitalizeAll(rest);
  }

  /** Within a piece that holds no `-`, `LabelAt` agrees with `Capitalize`. */
  lemma CapitalizeIsLabel(w: string)
    requires '-' !in w
    ensures forall j :: 0 <= j < |w| ==> Capitalize(w)[j] == LabelAt(w, j)
  {
    forall j | 0 <= j < |w|
      ensures Capitalize(w)[j] == LabelAt(w, j)
    {
      assert w[j] != '-';
      if j > 0 {
        assert w[j - 1] != '-';
      }
    }
  }

  /** `LabelAt` before the first `-` only looks at the first piece. */
  lemma LabelAtBeforeDash(s: string, i: nat, j: nat)
    requires i < |s| && '-' !in s[..i] && j < i
    ensures LabelAt(s, j) == LabelAt(s[..i], j)
  {
    assert s[..i][j] == s[j];
    if j > 0 {
      assert s[..i][j - 1] == s[j - 1];
    }
  }

  /** `LabelAt` after a `-` at position `i` only looks at what follows it. */
  lemma LabelAtAfterDash(s: string, i: nat, j: nat)
    requires i < j < |s| && s[i] == '-'
    ensures LabelAt(s, j) == LabelAt(s[i + 1..], j - i - 1)
  {
    var tail := s[i + 1..];
    assert tail[j - i - 1] == s[j];
    if j - i - 1 > 0 {
      assert tail[j - i - 2] == s[j - 1];
    }
  }

  /** Split, map and join keep the length of the status, and every character
      of the result is the one `LabelAt` names. */
  lemma {:induction false} SplitMapJoinPointwise(s: string)
    ensures |Join(CapitalizeAll(Split(s, '-')), " ")| == |s|
    ensures forall j :: 0 <= j < |s| ==> Join(CapitalizeAll(Split(s, '-')), " ")[j] == LabelAt(s, j)
    decreases |s|
  {
    var r := Join(CapitalizeAll(Split(s, '-')), " ");
    if '-' !in s {
      assert Split(s, '-') == [s];
      assert r == Capitalize(s);
      CapitalizeIsLabel(s);
    } else {
      var i := IndexOf(s, '-');
      var tail := s[i + 1..];
      SplitMapJoinUnfold(s);
      SplitMapJoinPointwise(tail);
      CapitalizeIsLabel(s[..i]);
      var rest := Join(CapitalizeAll(Split(tail, '-')), " ");
      assert r == Capitalize(s[..i]) + " " + rest;
      forall j | 0 <= j < |s|
        ensures r[j] == LabelAt(s, j)
      {
        if j < i {
          LabelAtBeforeDash(s, i, j);
        } else if j > i {
          LabelAtAfterDash(s, i, j);
        }
      }
    }
  }

  /** No label holds a `-`. */
  lemma FormatStatusHasNoDash(s: string)
    ensures '-' !in FormatStatus(s)
  {
    var r := FormatStatus(s);
    forall j | 0 <= j < |r|
      ensures r[j] != '-'
    {
      assert r[j] == LabelAt(s, j);
    }
  }

  /** Formatting a label again leaves it as it is. */
  lemma FormatStatusIdempotent(s: string)
    ensures FormatStatus(FormatStatus(s)) == FormatStatus(s)
  {
    var r := FormatStatus(s);
    FormatStatusHasNoDash(s);
    forall j | 0 <= j < |r|
      ensures FormatStatus(r)[j] == r[j]
    {
      assert r[j] != '-';
      if j > 0 {
        assert r[j - 1] != '-';
      } else {
        assert r[0] == LabelAt(s, 0);
      }
    }
  }

  /** The pieces of the status used for tasks that are under way. */
  lemma SplitInProgress()
    ensures Split("in-progress", '-') == ["in", "progress"]
  {
    var head, tail := "in", "progress";
    assert '-' !in head && '-' !in tail;
    SplitAfterPrefix(head, '-', tail);
    assert Split(tail, '-') == [tail];
    assert "in-progress" == head + ['-'] + tail;
  }

  /** The capitalized pieces of the status used for tasks that are under way. */
  lemma CapitalizeInProgress()
    ensures CapitalizeAll(["in", "progress"]) == ["In", "Progress"]
  {
    assert Capitalize("in") == "In";
    assert Capitalize("progress") == "Progress";
  }

  /** The status used for tasks that are under way. */
  lemma InProgressLabel()
    ensures FormatStatus("in-progress") == "In Progress"
  {
    SplitInProgress();
    CapitalizeInProgress();
    JoinCons("In", ["Progress"], " ");
    assert Join(["In", "Progress"], " ") == "In Progress";
  }
}
