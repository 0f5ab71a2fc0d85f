/**
 * The JavaScript string operations that the parsers are written with. Strings are sequences of
 * characters; none of the operations modelled here looks inside a surrogate pair.
 */
module JsString {

  /** White space and line terminators, the characters `trim` removes. */
  predicate IsSpace(c: char) {
    || '\t' <= c <= '\r' || c == ' ' || c == '\U{00A0}' || c == '\U{1680}'
    || '\U{2000}' <= c <= '\U{200A}' || c == '\U{2028}' || c == '\U{2029}'
    || c == '\U{202F}' || c == '\U{205F}' || c == '\U{3000}' || c == '\U{FEFF}'
  }

  /** These are the 25 characters that ECMA-262 calls white space and line terminators. */
  lemma SpaceCharacters(c: char)
    ensures IsSpace(c) <==> c in ['\U{0009}', '\U{000A}', '\U{000B}', '\U{000C}', '\U{000D}', '\U{0020}', '\U{00A0}',
                                  '\U{1680}', '\U{2000}', '\U{2001}', '\U{2002}', '\U{2003}', '\U{2004}', '\U{2005}',
                                  '\U{2006}', '\U{2007}', '\U{2008}', '\U{2009}', '\U{200A}', '\U{2028}', '\U{2029}',
                                  '\U{202F}', '\U{205F}', '\U{3000}', '\U{FEFF}']
  {
  }

  function TrimStart(s: string): string {
    if s != [] && IsSpace(s[0]) then TrimStart(s[1..]) else s
  }

  function TrimEnd(s: string): string {
    if s != [] && IsSpace(s[|s| - 1]) then TrimEnd(s[..|s| - 1]) else s
  }

  function Trim(s: string): string {
    TrimEnd(TrimStart(s))
  }

  /** A string that `trim` leaves alone. */
  predicate Trimmed(s: string) {
    s == [] || (!IsSpace(s[0]) && !IsSpace(s[|s| - 1]))
  }

  lemma {:induction false} TrimStartFacts(s: string)
    ensures var t := TrimStart(s);
            && (t == [] || !IsSpace(t[0]))
            && (if s == [] || !IsSpace(s[0]) then t == s else |t| < |s|)
            && forall c :: c in s && !IsSpace(c) ==> c in t
  {
    if s != [] && IsSpace(s[0]) {
      TrimStartFacts(s[1..]);
      assert s == [s[0]] + s[1..];
    }
  }

  lemma {:induction false} TrimEndFacts(s: string)
    ensures var t := TrimEnd(s);
            && (t == [] || !IsSpace(t[|t| - 1]))
            && t <= s
            && (t == s <==> s == [] || !IsSpace(s[|s| - 1]))
            && forall c :: c in s && !IsSpace(c) ==> c in t
  {
    if s != [] && IsSpace(s[|s| - 1]) {
      TrimEndFacts(s[..|s| - 1]);
      assert s == s[..|s| - 1] + [s[|s| - 1]];
    }
  }

  lemma TrimFixpoint(s: string)
    ensures Trim(s) == s <==> Trimmed(s)
    ensures Trimmed(Trim(s))
    ensures TrimStart(s) == s <==> s == [] || !IsSpace(s[0])
    ensures |TrimStart(s)| <= |s|
    ensures |TrimStart(s)| == |s| ==> TrimStart(s) == s
  {
    TrimStartFacts(s);
    TrimEndFacts(TrimStart(s));
  }

  predicate AllSpace(s: string) {
    forall c :: c in s ==> IsSpace(c)
  }

  lemma {:induction false} TrimStartParts(s: string) returns (front: string)
    ensures s == front + TrimStart(s) && AllSpace(front)
  {
    if s != [] && IsSpace(s[0]) {
      var rest := TrimStartParts(s[1..]);
      front := [s[0]] + rest;
      assert s == [s[0]] + s[1..];
    } else {
      front := [];
    }
  }

  lemma {:induction false} TrimEndParts(s: string) returns (back: string)
    ensures s == TrimEnd(s) + back && AllSpace(back)
  {
    if s != [] && IsSpace(s[|s| - 1]) {
      var rest := TrimEndParts(s[..|s| - 1]);
      back := rest + [s[|s| - 1]];
      assert s == s[..|s| - 1] + [s[|s| - 1]];
    } else {
      back := [];
    }
  }

  /** Trimming takes white space off both ends, as much as there is, and nothing else. */
  lemma TrimParts(s: string) returns (front: string, back: string)
    ensures s == front + Trim(s) + back && AllSpace(front) && AllSpace(back) && Trimmed(Trim(s))
  {
    front := TrimStartParts(s);
    back := TrimEndParts(TrimStart(s));
    TrimFixpoint(s);
  }

  lemma TrimKeeps(s: string, c: char)
    requires c in s && !IsSpace(c)
    ensures c in Trim(s)
  {
    TrimStartFacts(s);
    TrimEndFacts(TrimStart(s));
  }

  lemma NotBlank(s: string)
    requires s != [] && !IsSpace(s[0])
    ensures Trim(s) != []
  {
    TrimKeeps(s, s[0]);
  }

  /** What is left after trimming are characters of the string. */
  lemma {:induction false} TrimStartAddsNothing(s: string)
    ensures forall c :: c in TrimStart(s) ==> c in s
  {
    if s != [] && IsSpace(s[0]) {
      TrimStartAddsNothing(s[1..]);
    }
  }

  lemma TrimAddsNothing(s: string)
    ensures forall c :: c in Trim(s) ==> c in s
  {
    TrimStartAddsNothing(s);
    TrimEndFacts(TrimStart(s));
  }

  // ----- split and join -----

  function Prepend(c: char, parts: seq<string>): (r: seq<string>)
    requires parts != []
    ensures |r| == |parts|
  {
    [[c] + parts[0]] + parts[1..]
  }

  /** `s.split(sep)`: cut at the leftmost occurrence of `sep`, again and again. */
  function Split(s: string, sep: string): (parts: seq<string>)
    requires sep != []
    ensures parts != []
    decreases |s|
  {
    if |s| < |sep| then [s]
    else if sep <= s then [""] + Split(s[|sep|..], sep)
    else Prepend(s[0], Split(s[1..], sep))
  }

  function Join(parts: seq<string>, sep: string): string {
    if parts == [] then ""
    else if |parts| == 1 then parts[0]
    else parts[0] + sep + Join(parts[1..], sep)
  }

  lemma JoinPrepend(c: char, parts: seq<string>, sep: string)
    requires parts != []
    ensures Join(Prepend(c, parts), sep) == [c] + Join(parts, sep)
  {
    if |parts| > 1 {
      assert Prepend(c, parts)[1..] == parts[1..];
      assert [c] + (parts[0] + sep + Join(parts[1..], sep)) == ([c] + parts[0]) + sep + Join(parts[1..], sep);
    }
  }

  /** Nothing is lost by splitting. */
  lemma {:induction false} JoinSplit(s: string, sep: string)
    requires sep != []
    ensures Join(Split(s, sep), sep) == s
    decreases |s|
  {
    if |s| < |sep| {
    } else if sep <= s {
      var rest := Split(s[|sep|..], sep);
      JoinSplit(s[|sep|..], sep);
      assert ([""] + rest)[1..] == rest;
      assert s == "" + sep + s[|sep|..];
    } else {
      JoinSplit(s[1..], sep);
      JoinPrepend(s[0], Split(s[1..], sep), sep);
      assert s == [s[0]] + s[1..];
    }
  }

  function AllButLast<T>(parts: seq<T>): seq<T>
    requires parts != []
  {
    parts[..|parts| - 1]
  }

  function Last<T>(parts: seq<T>): T
    requires parts != []
  {
    parts[|parts| - 1]
  }

  /** All parts in one. */
  function Flatten<T>(parts: seq<seq<T>>): seq<T> {
    if parts == [] then [] else Flatten(AllButLast(parts)) + Last(parts)
  }

  /** Prepending a character does not reach past the first of several parts. */
  lemma PrependBeforeLast(c: char, parts: seq<string>, more: seq<string>)
    requires |parts| > 1 && more != []
    ensures Prepend(c, AllButLast(parts) + more) == AllButLast(Prepend(c, parts)) + more
    ensures Last(Prepend(c, parts)) == Last(parts)
  {
  }

  lemma SplitSingle(s: string, sep: string)
    requires sep != [] && |Split(s, sep)| == 1
    ensures Split(s, sep) == [s]
  {
    JoinSplit(s, sep);
  }

  lemma AppendAfterSep(s: string, t: string, sep: string)
    requires sep != [] && sep <= s
    requires var rest := s[|sep|..];
             Split(rest + t, sep) == AllButLast(Split(rest, sep)) + Split(Last(Split(rest, sep)) + t, sep)
    ensures Split(s + t, sep) == AllButLast(Split(s, sep)) + Split(Last(Split(s, sep)) + t, sep)
  {
    var rest := Split(s[|sep|..], sep);
    assert sep <= s + t && (s + t)[|sep|..] == s[|sep|..] + t;
    assert [""] + (AllButLast(rest) + Split(Last(rest) + t, sep))
        == AllButLast([""] + rest) + Split(Last(rest) + t, sep);
  }

  lemma AppendAfterChar(s: string, t: string, sep: string)
    requires sep != [] && |sep| <= |s| && !(sep <= s) && |Split(s, sep)| > 1
    requires Split(s[1..] + t, sep) == AllButLast(Split(s[1..], sep)) + Split(Last(Split(s[1..], sep)) + t, sep)
    ensures Split(s + t, sep) == AllButLast(Split(s, sep)) + Split(Last(Split(s, sep)) + t, sep)
  {
    assert (s + t)[1..] == s[1..] + t;
    assert (s + t)[..|sep|] == s[..|sep|];
    PrependBeforeLast(s[0], Split(s[1..], sep), Split(Last(Split(s[1..], sep)) + t, sep));
  }

  /**
   * Splitting is incremental: the parts that are complete after `s` stay as they are, and only
   * the unfinished last part takes part in splitting what comes next.
   */
  lemma {:induction false} SplitAppend(s: string, t: string, sep: string)
    requires sep != []
    ensures Split(s + t, sep) == AllButLast(Split(s, sep)) + Split(Last(Split(s, sep)) + t, sep)
    decreases |s|
  {
    if |Split(s, sep)| == 1 {
      SplitSingle(s, sep);
      assert [] + Split(s + t, sep) == Split(s + t, sep);
    } else if sep <= s {
      SplitAppend(s[|sep|..], t, sep);
      AppendAfterSep(s, t, sep);
    } else {
      SplitAppend(s[1..], t, sep);
      AppendAfterChar(s, t, sep);
    }
  }

  /** A part that a following separator ends where it should. */
  ghost predicate EndsCleanly(part: string, sep: string)
    requires sep != []
  {
    Split(part + sep, sep) == [part, ""]
  }

  lemma SplitCleanFirst(part: string, rest: string, sep: string)
    requires sep != [] && EndsCleanly(part, sep)
    ensures Split(part + sep + rest, sep) == [part] + Split(rest, sep)
  {
    SplitAppend(part + sep, rest, sep);
    assert "" + rest == rest;
  }

  /** Splitting undoes joining, for parts that end cleanly. */
  lemma {:induction false} SplitJoin(parts: seq<string>, sep: string)
    requires sep != [] && parts != []
    requires forall i :: 0 <= i < |parts| - 1 ==> EndsCleanly(parts[i], sep)
    requires Split(parts[|parts| - 1], sep) == [parts[|parts| - 1]]
    ensures Split(Join(parts, sep), sep) == parts
  {
    if |parts| > 1 {
      SplitJoin(parts[1..], sep);
      SplitCleanFirst(parts[0], Join(parts[1..], sep), sep);
    }
  }

  /** For a one-character separator a part is clean when it does not contain the character. */
  lemma {:induction false} CharFreeIsClean(part: string, c: char)
    requires c !in part
    ensures EndsCleanly(part, [c]) && Split(part, [c]) == [part]
  {
    if part == [] {
      assert ([c] + [])[1..] == [];
      assert part + [c] == [c];
      assert [c] <= [c] && [c][1..] == "";
      assert Split("", [c]) == [""];
    } else {
      CharFreeIsClean(part[1..], c);
      assert (part + [c])[1..] == part[1..] + [c];
      assert (part + [c])[0] == part[0] != c;
      assert [part[0]] + part[1..] == part;
    }
  }

  lemma SplitJoinChar(parts: seq<string>, c: char)
    requires parts != [] && forall p :: p in parts ==> c !in p
    ensures Split(Join(parts, [c]), [c]) == parts
  {
    forall i | 0 <= i < |parts|
      ensures EndsCleanly(parts[i], [c]) && Split(parts[i], [c]) == [parts[i]]
    {
      CharFreeIsClean(parts[i], c);
    }
    SplitJoin(parts, [c]);
  }

  /** No part produced by a one-character split contains the character. */
  lemma {:induction false} SplitPartsCharFree(s: string, c: char)
    ensures forall p :: p in Split(s, [c]) ==> c !in p
    decreases |s|
  {
    if s != [] {
      SplitPartsCharFree(s[1..], c);
      var rest := Split(s[1..], [c]);
      if s[0] == c {
        assert Split(s, [c]) == [""] + rest;
      } else {
        assert Split(s, [c]) == Prepend(s[0], rest);
        assert rest[0] in rest;
        forall p | p in Prepend(s[0], rest)
          ensures c !in p
        {
          assert p == [s[0]] + rest[0] || p in rest;
        }
      }
    }
  }
}
