/** The CORS origin list of the backend settings (`app/core/config.py`). */
module Config {
  import opened Text

  /** The default of `CORS_ORIGINS`. */
  const DefaultCorsOrigins: string := "http://localhost:5173"

  /** A usable origin: non-empty, stripped, and free of the list separator. */
  predicate IsOrigin(o: string) {
    |o| > 0 && IsTrimmed(Python, o) && ',' !in o
  }

  /** A stripped piece holds no character its piece did not hold. */
  lemma TrimKeepsOut(p: string, c: char)
    requires c !in p
    ensures c !in Trim(Python, p)
  {
    var i := LeadingSpaces(Python, p);
    var n := TrailingStart(Python, p[i..]);
    assert Trim(Python, p) == p[i..i + n];
    SliceKeepsOut(p, i, i + n, c);
  }

  lemma SliceKeepsOut(p: string, lo: nat, hi: nat, c: char)
    requires lo <= hi <= |p| && c !in p
    ensures c !in p[lo..hi]
  {
    forall k | 0 <= k < hi - lo ensures p[lo..hi][k] != c {
      assert p[lo..hi][k] == p[lo + k];
    }
  }

  /** `[x.strip() for x in pieces if x.strip()]`. */
  function StripNonEmpty(pieces: seq<string>): (r: seq<string>)
    ensures |r| <= |pieces|
    ensures (forall k | 0 <= k < |pieces| :: ',' !in pieces[k]) ==> forall k | 0 <= k < |r| :: IsOrigin(r[k])
  {
    if |pieces| == 0 then []
    else
      var x := Trim(Python, pieces[0]);
      var rest := StripNonEmpty(pieces[1..]);
      CommaFreeSplitsOff(pieces);
      if x != [] then [x] + rest else rest
  }

  /** Comma-free pieces give a comma-free first strip and comma-free remaining pieces. */
  lemma CommaFreeSplitsOff(pieces: seq<string>)
    requires |pieces| > 0
    ensures (forall k | 0 <= k < |pieces| :: ',' !in pieces[k]) ==>
              && ',' !in Trim(Python, pieces[0])
              && forall k | 0 <= k < |pieces[1..]| :: ',' !in pieces[1..][k]
  {
    if forall k | 0 <= k < |pieces| :: ',' !in pieces[k] {
      assert ',' !in pieces[0];
      TrimKeepsOut(pieces[0], ',');
      assert forall k | 0 <= k < |pieces[1..]| :: pieces[1..][k] == pieces[k + 1];
    }
  }

  /** `Settings.cors_list`: the comma-separated entries of `CORS_ORIGINS`,
      stripped, blanks dropped. */
  function CorsList(origins: string): (r: seq<string>)
    ensures forall k | 0 <= k < |r| :: IsOrigin(r[k])
    ensures |r| <= |Split(origins, ',')|
  {
    StripNonEmpty(Split(origins, ','))
  }

  /** One piece: nothing when it is blank, otherwise its strip. */
  lemma StripNonEmptyOne(p: string)
    ensures StripNonEmpty([p]) == if AllSpace(Python, p) then [] else [Trim(Python, p)]
  {
    TrimEmptyIff(Python, p);
    assert [p][1..] == [];
  }

  /** Any comma-free pieces, written comma-separated, give the strips of the
      non-blank pieces, in order. */
  lemma CorsListOfPieces(pieces: seq<string>)
    requires |pieces| >= 1
    requires forall k | 0 <= k < |pieces| :: ',' !in pieces[k]
    ensures CorsList(Join(pieces, ',')) == StripNonEmpty(pieces)
  {
    SplitJoin(pieces, ',');
  }

  /** Spaces around the entries and a trailing comma are dropped:
      `" http://a , http://b ,"` allows `http://a` and `http://b`. */
  lemma CorsListStripsEntries()
    ensures CorsList(" http://a , http://b ,") == ["http://a", "http://b"]
  {
    var a, b := " " + "http://a" + " ", " " + "http://b" + " ";
    ExampleSetting();
    CorsListOfPieces([a, b, ""]);
    ExampleOrigins();
    StripSpaced("http://a");
    StripSpaced("http://b");
    StripTwoAndBlank(a, b, "http://a", "http://b");
  }

  /** The example setting as three comma-free pieces. */
  lemma ExampleSetting()
    ensures var a, b := " " + "http://a" + " ", " " + "http://b" + " ";
            && Join([a, b, ""], ',') == " http://a , http://b ,"
            && ',' !in a && ',' !in b
  {
    var a, b := " " + "http://a" + " ", " " + "http://b" + " ";
    JoinThree(a, b, "", ',');
    assert a + ([','] + b + ([','] + "")) == " http://a , http://b ,";
    assert forall k | 0 <= k < |a| :: a[k] != ',' && b[k] != ',';
  }

  lemma ExampleOrigins()
    ensures IsOrigin("http://a") && IsOrigin("http://b")
  {
    var a, b := "http://a", "http://b";
    assert !IsSpace(Python, a[0]) && !IsSpace(Python, a[7]);
    assert !IsSpace(Python, b[0]) && !IsSpace(Python, b[7]);
    assert forall k | 0 <= k < 8 :: a[k] != ',' && b[k] != ',';
  }

  /** Two pieces and a blank one strip as the two pieces do. */
  lemma StripTwoAndBlank(a: string, b: string, x: string, y: string)
    requires StripNonEmpty([a]) == [x] && StripNonEmpty([b]) == [y]
    ensures StripNonEmpty([a, b, ""]) == [x, y]
  {
    StripTwo(a, b, x, y);
    StripThenBlank([a, b]);
    assert [a, b] + [""] == [a, b, ""];
  }

  lemma StripTwo(a: string, b: string, x: string, y: string)
    requires StripNonEmpty([a]) == [x] && StripNonEmpty([b]) == [y]
    ensures StripNonEmpty([a, b]) == [x, y]
  {
    StripNonEmptyAppend([a], [b]);
    assert [a] + [b] == [a, b];
  }

  /** A blank last piece adds nothing. */
  lemma StripThenBlank(pieces: seq<string>)
    ensures StripNonEmpty(pieces + [""]) == StripNonEmpty(pieces)
  {
    StripNonEmptyAppend(pieces, [""]);
    assert AllSpace(Python, "");
    StripNonEmptyOne("");
  }

  /** An origin padded with one space on each side strips to itself. */
  lemma StripSpaced(o: string)
    requires IsOrigin(o)
    ensures StripNonEmpty([" " + o + " "]) == [o]
  {
    TrimSpaced(Python, o);
    StripNonEmptyOne(" " + o + " ");
    TrimEmptyIff(Python, " " + o + " ");
  }

  /** Stripping keeps the order of the pieces: entries from earlier pieces
      come first. */
  lemma {:induction false} StripNonEmptyAppend(a: seq<string>, b: seq<string>)
    ensures StripNonEmpty(a + b) == StripNonEmpty(a) + StripNonEmpty(b)
  {
    if |a| > 0 {
      assert (a + b)[0] == a[0];
      assert (a + b)[1..] == a[1..] + b;
      StripNonEmptyAppend(a[1..], b);
    } else {
      assert a + b == b;
    }
  }

  lemma {:induction false} StripNonEmptyOfOrigins(pieces: seq<string>)
    requires forall k | 0 <= k < |pieces| :: IsOrigin(pieces[k])
    ensures StripNonEmpty(pieces) == pieces
  {
    if |pieces| > 0 {
      TrimOfTrimmed(Python, pieces[0]);
      StripNonEmptyOfOrigins(pieces[1..]);
    }
  }

  /** Any list of usable origins, written comma-separated, reads back as itself. */
  lemma CorsListRoundTrip(origins: seq<string>)
    requires |origins| >= 1
    requires forall k | 0 <= k < |origins| :: IsOrigin(origins[k])
    ensures CorsList(Join(origins, ',')) == origins
  {
    SplitJoin(origins, ',');
    StripNonEmptyOfOrigins(origins);
  }

  /** The default setting allows exactly the Vite development server. */
  lemma DefaultCorsList()
    ensures CorsList(DefaultCorsOrigins) == [DefaultCorsOrigins]
  {
    assert IsOrigin(DefaultCorsOrigins);
    CorsListRoundTrip([DefaultCorsOrigins]);
  }

  /** Separators and whitespace alone allow no origin. */
  predicate IsBlankList(s: string) {
    forall k | 0 <= k < |s| :: s[k] == ',' || IsSpace(Python, s[k])
  }

  lemma {:induction false} PieceIsInJoin(pieces: seq<string>, sep: char, j: nat, c: char)
    requires j < |pieces| && c in pieces[j]
    ensures c in Join(pieces, sep)
  {
    if j > 0 {
      PieceIsInJoin(pieces[1..], sep, j - 1, c);
      assert Join(pieces, sep) == pieces[0] + [sep] + Join(pieces[1..], sep);
    } else if |pieces| > 1 {
      assert Join(pieces, sep) == pieces[0] + [sep] + Join(pieces[1..], sep);
    }
  }

  lemma {:induction false} StripNonEmptyOfBlanks(pieces: seq<string>)
    requires forall k | 0 <= k < |pieces| :: AllSpace(Python, pieces[k])
    ensures StripNonEmpty(pieces) == []
  {
    if |pieces| > 0 {
      TrimEmptyIff(Python, pieces[0]);
      StripNonEmptyOfBlanks(pieces[1..]);
    }
  }

  lemma BlankListAllowsNothing(s: string)
    requires IsBlankList(s)
    ensures CorsList(s) == []
  {
    var pieces := Split(s, ',');
    forall j | 0 <= j < |pieces| ensures AllSpace(Python, pieces[j]) {
      forall k | 0 <= k < |pieces[j]| ensures IsSpace(Python, pieces[j][k]) {
        PieceIsInJoin(pieces, ',', j, pieces[j][k]);
      }
    }
    StripNonEmptyOfBlanks(pieces);
  }
}
