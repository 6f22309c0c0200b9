/** How a reported path becomes the last part of a metric name. A char stands for one byte of the path. */
module MetricName {
  const PREFIX := "zensor_server_victron"

  predicate IsUpper(c: char) {
    'A' <= c <= 'Z'
  }

  function Lower(c: char): (r: char)
    requires IsUpper(c)
    ensures 'a' <= r <= 'z' && r as int - 'a' as int == c as int - 'A' as int
  {
    (c as int + 32) as char
  }

  predicate Clean(s: string) {
    forall i :: 0 <= i < |s| ==> !IsUpper(s[i]) && s[i] != '/'
  }

  function NormalizedByte(c: char): (r: string)
    ensures 'A' <= c <= 'Z' ==> |r| == 2 && r[0] == '_' && 'a' <= r[1] <= 'z' && r[1] as int - 'a' as int == c as int - 'A' as int
    ensures c == '/' ==> r == "_"
    ensures !('A' <= c <= 'Z') && c != '/' ==> r == [c]
  {
    if IsUpper(c) then ['_', Lower(c)] else if c == '/' then ['_'] else [c]
  }

  function Normalized(path: string): string {
    if path == "" then "" else Normalized(path[..|path| - 1]) + NormalizedByte(path[|path| - 1])
  }

  lemma NormalizedNothing()
    ensures Normalized("") == ""
  {
  }

  lemma NormalizedLast(s: string, c: char)
    ensures Normalized(s + [c]) == Normalized(s) + NormalizedByte(c)
  {
    assert (s + [c])[..|s|] == s;
  }

  /** Each byte is normalised by itself. */
  lemma {:induction false} NormalizedAppend(a: string, b: string)
    ensures Normalized(a + b) == Normalized(a) + Normalized(b)
  {
    hide NormalizedByte, Normalized;
    if b == "" {
      assert Normalized("") == "" by { NormalizedNothing(); }
      assert a + b == a;
    } else {
      var init, last := b[..|b| - 1], b[|b| - 1];
      NormalizedAppend(a, init);
      NormalizedLast(a + init, last);
      NormalizedLast(init, last);
      assert b == init + [last] && a + b == a + init + [last];
    }
  }

  /** Every capital becomes an underscore and its small letter, and every slash an underscore. */
  method NormalizePath(path: string) returns (b: string)
    ensures b == Normalized(path)
    ensures Clean(b)
    ensures forall i :: 0 <= i < |b| ==> !('A' <= b[i] <= 'Z') && b[i] != '/'
  {
    b := [];
    for i := 0 to |path|
      invariant b == Normalized(path[..i])
      invariant Clean(b)
    {
      assert path[..i + 1][..i] == path[..i];
      var c := path[i];
      if IsUpper(c) {
        b := b + ['_'];
        b := b + [Lower(c)];
      } else if c == '/' {
        b := b + ['_'];
      } else {
        b := b + [c];
      }
    }
    assert path[..|path|] == path;
  }

  // ---- Words between underscores ----

  function Split(s: string): (pieces: seq<string>)
    ensures |pieces| > 0
  {
    if s == "" then [""]
    else if s[0] == '_' then [""] + Split(s[1..])
    else
      var rest := Split(s[1..]);
      [[s[0]] + rest[0]] + rest[1..]
  }

  function NonEmpty(pieces: seq<string>): (r: seq<string>)
    ensures forall i :: 0 <= i < |r| ==> r[i] != ""
  {
    if pieces == [] then [] else (if pieces[0] == "" then [] else [pieces[0]]) + NonEmpty(pieces[1..])
  }

  predicate NoUnderscore(s: string) {
    forall i :: 0 <= i < |s| ==> s[i] != '_'
  }

  /** No piece has an underscore in it. */
  lemma {:induction false} PiecesHaveNoUnderscore(s: string)
    ensures forall i :: 0 <= i < |Split(s)| ==> NoUnderscore(Split(s)[i])
  {
    if s != "" {
      PiecesHaveNoUnderscore(s[1..]);
    }
  }

  lemma {:induction false} NonEmptySelects(pieces: seq<string>)
    ensures forall p :: p in NonEmpty(pieces) <==> p in pieces && p != ""
  {
    if pieces != [] {
      NonEmptySelects(pieces[1..]);
      assert pieces == [pieces[0]] + pieces[1..];
    }
  }

  function Joined(pieces: seq<string>): string {
    if pieces == [] then ""
    else if |pieces| == 1 then pieces[0]
    else pieces[0] + "_" + Joined(pieces[1..])
  }

  function Words(s: string): seq<string> {
    NonEmpty(Split(s))
  }

  lemma {:induction false} JoinedSplit(s: string)
    ensures Joined(Split(s)) == s
  {
    if s == "" {
    } else {
      JoinedSplit(s[1..]);
      if s[0] != '_' {
        var rest := Split(s[1..]);
        assert ([[s[0]] + rest[0]] + rest[1..])[1..] == rest[1..];
      } else {
        assert ([""] + Split(s[1..]))[1..] == Split(s[1..]);
      }
    }
  }

  // ---- Trimming and replacing ----

  function TrimLeft(s: string): string {
    if s != "" && s[0] == '_' then TrimLeft(s[1..]) else s
  }

  function TrimRight(s: string): string {
    if s != "" && s[|s| - 1] == '_' then TrimRight(s[..|s| - 1]) else s
  }

  function Trimmed(s: string): string {
    TrimRight(TrimLeft(s))
  }

  predicate NoOuter(s: string) {
    s == "" || (s[0] != '_' && s[|s| - 1] != '_')
  }

  predicate HasDouble(s: string) {
    exists i :: 0 <= i < |s| - 1 && s[i] == '_' && s[i + 1] == '_'
  }

  /** Every two underscores, from the left and without overlap, replaced by one. */
  function Replaced(s: string): string {
    if |s| < 2 then s
    else if s[0] == '_' && s[1] == '_' then "_" + Replaced(s[2..])
    else [s[0]] + Replaced(s[1..])
  }

  lemma {:induction false} TrimLeftKeepsWords(s: string)
    ensures Words(TrimLeft(s)) == Words(s)
    ensures TrimLeft(s) == "" || TrimLeft(s)[0] != '_'
    ensures Clean(s) ==> Clean(TrimLeft(s))
  {
    if s != "" && s[0] == '_' {
      TrimLeftKeepsWords(s[1..]);
      assert ([""] + Split(s[1..]))[1..] == Split(s[1..]);
    }
  }

  lemma {:induction false} SplitTrailing(s: string)
    ensures Split(s + "_") == Split(s) + [""]
  {
    if s == "" {
      assert ("_")[1..] == "";
    } else {
      SplitTrailing(s[1..]);
      assert (s + "_")[1..] == s[1..] + "_";
    }
  }

  lemma {:induction false} NonEmptyTrailing(pieces: seq<string>)
    ensures NonEmpty(pieces + [""]) == NonEmpty(pieces)
  {
    if pieces == [] {
      assert [""][1..] == [];
    } else {
      NonEmptyTrailing(pieces[1..]);
      assert (pieces + [""])[1..] == pieces[1..] + [""];
    }
  }

  lemma WordsTrailing(s: string)
    ensures Words(s + "_") == Words(s)
  {
    hide Split, NonEmpty;
    SplitTrailing(s);
    NonEmptyTrailing(Split(s));
  }

  lemma {:induction false} TrimRightKeepsWords(s: string)
    ensures Words(TrimRight(s)) == Words(s)
    ensures TrimRight(s) <= s
    ensures TrimRight(s) == "" || TrimRight(s)[|TrimRight(s)| - 1] != '_'
  {
    if s != "" && s[|s| - 1] == '_' {
      hide Words;
      var rest := s[..|s| - 1];
      TrimRightKeepsWords(rest);
      assert s == rest + "_";
      WordsTrailing(rest);
    }
  }

  // One round keeps the first piece and the words after it.
  lemma {:induction false} ReplacedKeepsPieces(s: string)
    ensures Split(Replaced(s))[0] == Split(s)[0]
    ensures NonEmpty(Split(Replaced(s))[1..]) == NonEmpty(Split(s)[1..])
  {
    if |s| < 2 {
    } else if s[0] == '_' && s[1] == '_' {
      var rest := s[2..];
      ReplacedKeepsPieces(rest);
      assert s[1..][1..] == rest;
      var after := "_" + Replaced(rest);
      assert after[1..] == Replaced(rest);
      assert Split(after)[1..] == Split(Replaced(rest));
      assert Split(s)[1..] == Split(s[1..]);
      assert Split(s[1..])[1..] == Split(rest);
    } else {
      var rest := s[1..];
      ReplacedKeepsPieces(rest);
      var after := [s[0]] + Replaced(rest);
      assert after[1..] == Replaced(rest);
      if s[0] == '_' {
        assert Split(after)[1..] == Split(Replaced(rest));
        assert Split(s)[1..] == Split(rest);
      } else {
        assert Split(after)[1..] == Split(Replaced(rest))[1..];
        assert Split(s)[1..] == Split(rest)[1..];
      }
    }
  }

  lemma ReplacedKeepsWords(s: string)
    ensures Words(Replaced(s)) == Words(s)
  {
    ReplacedKeepsPieces(s);
  }

  lemma {:induction false} ReplacedKeepsEnds(s: string)
    requires s != ""
    ensures Replaced(s) != "" && |Replaced(s)| <= |s|
    ensures Replaced(s)[0] == s[0] && Replaced(s)[|Replaced(s)| - 1] == s[|s| - 1]
  {
    if |s| > 2 && s[0] == '_' && s[1] == '_' {
      ReplacedKeepsEnds(s[2..]);
    } else if |s| >= 2 && !(s[0] == '_' && s[1] == '_') {
      ReplacedKeepsEnds(s[1..]);
    }
  }

  lemma {:induction false} ReplacedStaysClean(s: string)
    requires Clean(s)
    ensures Clean(Replaced(s))
  {
    if |s| >= 2 {
      ReplacedStaysClean(if s[0] == '_' && s[1] == '_' then s[2..] else s[1..]);
    }
  }

  // A round with something to replace makes the text shorter, so the rounds come to an end.
  lemma {:induction false} ReplacedShrinks(s: string)
    requires HasDouble(s)
    ensures |Replaced(s)| < |s|
  {
    if s[0] == '_' && s[1] == '_' {
      if |s| > 2 {
        ReplacedKeepsEnds(s[2..]);
      }
    } else {
      var i :| 0 <= i < |s| - 1 && s[i] == '_' && s[i + 1] == '_';
      assert s[1..][i - 1] == '_' && s[1..][i] == '_';
      ReplacedShrinks(s[1..]);
    }
  }

  // Without double or outer underscores no piece is empty, so the words joined are the text itself.
  lemma {:induction false} PiecesAreWords(s: string)
    requires s != "" && s[|s| - 1] != '_' && !HasDouble(s)
    ensures NonEmpty(Split(s)[1..]) == Split(s)[1..]
    ensures s[0] != '_' ==> Split(s)[0] != ""
  {
    if |s| > 1 {
      var rest := s[1..];
      PiecesAreWords(rest);
      if s[0] == '_' {
        assert s[1] != '_';
        assert rest[0] != '_';
        assert Split(s)[1..] == Split(rest);
      } else {
        assert Split(s)[1..] == Split(rest)[1..];
      }
    } else {
      assert s[1..] == "";
      assert Split(s)[1..] == [];
    }
  }

  lemma JoinedWords(s: string)
    requires NoOuter(s) && !HasDouble(s)
    ensures Joined(Words(s)) == s
  {
    if s == "" {
      assert [""][1..] == [];
    } else {
      PiecesAreWords(s);
      JoinedSplit(s);
      assert Split(s) == [Split(s)[0]] + Split(s)[1..];
    }
  }

  /** A word is not empty and has no underscore in it. */
  lemma WordsAreWords(s: string)
    ensures forall i :: 0 <= i < |Words(s)| ==> Words(s)[i] != "" && NoUnderscore(Words(s)[i])
    ensures forall i, k :: 0 <= i < |Words(s)| && 0 <= k < |Words(s)[i]| ==> Words(s)[i][k] != '_'
  {
    PiecesHaveNoUnderscore(s);
    NonEmptySelects(Split(s));
    forall i | 0 <= i < |Words(s)|
      ensures Words(s)[i] != "" && NoUnderscore(Words(s)[i])
    {
      assert Words(s)[i] in NonEmpty(Split(s));
    }
  }

  /** The path part of a metric name: the words of the normalised path, joined by single underscores. */
  method MetricPath(path: string) returns (r: string)
    ensures r == Joined(Words(Normalized(path)))
    ensures r != "" ==> r[0] != '_' && r[|r| - 1] != '_'
    ensures forall i :: 0 < i < |r| ==> r[i] != '_' || r[i - 1] != '_'
    ensures forall i :: 0 <= i < |r| ==> !('A' <= r[i] <= 'Z') && r[i] != '/'
  {
    hide Normalized, Words, Replaced, TrimLeft, TrimRight, Joined;
    r := NormalizePath(path);
    TrimLeftKeepsWords(r);
    TrimRightKeepsWords(TrimLeft(r));
    r := Trimmed(r);
    while HasDouble(r)
      invariant Words(r) == Words(Normalized(path))
      invariant NoOuter(r) && Clean(r)
      decreases |r|
    {
      ReplacedKeepsWords(r);
      ReplacedKeepsEnds(r);
      ReplacedStaysClean(r);
      ReplacedShrinks(r);
      r := Replaced(r);
    }
    JoinedWords(r);
  }

  /** The whole metric name for a service whose snake-case name is given. */
  method VictronMetricName(service: string, path: string) returns (name: string)
    ensures name == "zensor_server_victron_" + service + "_" + Joined(Words(Normalized(path)))
    ensures name[|name| - 1] == '_' <==> Words(Normalized(path)) == []
  {
    var part := MetricPath(path);
    name := PREFIX + "_" + service + "_" + part;
    assert PREFIX + "_" == "zensor_server_victron_";
  }
}
