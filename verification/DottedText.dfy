/** Splitting a string at its dots, and joining the parts again. */
module DottedText {

  /** `s.split(".")` */
  function SplitDots(s: string): (parts: seq<string>)
    ensures |parts| > 0
    ensures forall part :: part in parts ==> '.' !in part
  {
    if s == "" then [""]
    else
      var rest := SplitDots(s[1..]);
      if s[0] == '.' then [""] + rest
      else [[s[0]] + rest[0]] + rest[1..]
  }

  ghost function JoinDots(parts: seq<string>): string {
    if parts == [] then ""
    else if |parts| == 1 then parts[0]
    else parts[0] + "." + JoinDots(parts[1..])
  }

  lemma {:induction false} SplitDotsOfPart(part: string, rest: string)
    requires '.' !in part
    ensures SplitDots(part + "." + rest) == [part] + SplitDots(rest)
    ensures SplitDots(part) == [part]
  {
    if part == "" {
      assert part + "." + rest == "." + rest;
      assert ("." + rest)[1..] == rest;
    } else {
      SplitDotsOfPart(part[1..], rest);
      var whole := part + "." + rest;
      assert whole[1..] == part[1..] + "." + rest;
      assert part == [part[0]] + part[1..];
    }
  }

  lemma JoinPrepended(c: char, parts: seq<string>)
    requires parts != []
    ensures JoinDots([[c] + parts[0]] + parts[1..]) == [c] + JoinDots(parts)
  {
    var more := [[c] + parts[0]] + parts[1..];
    assert more[1..] == parts[1..];
    if |parts| > 1 {
      assert [c] + parts[0] + "." + JoinDots(parts[1..]) == [c] + (parts[0] + "." + JoinDots(parts[1..]));
    }
  }

  lemma JoinWithEmpty(parts: seq<string>)
    requires parts != []
    ensures JoinDots([""] + parts) == "." + JoinDots(parts)
  {
    assert ([""] + parts)[1..] == parts;
    assert "" + "." + JoinDots(parts) == "." + JoinDots(parts);
  }

  /** Joining undoes splitting. */
  lemma {:induction false} JoinOfSplit(s: string)
    ensures JoinDots(SplitDots(s)) == s
  {
    hide JoinDots;
    if s == "" {
      NothingToJoin();
    } else {
      JoinOfSplit(s[1..]);
      JoinPrepended(s[0], SplitDots(s[1..]));
      JoinWithEmpty(SplitDots(s[1..]));
      assert s == [s[0]] + s[1..];
    }
  }

  lemma NothingToJoin()
    ensures JoinDots([""]) == ""
  {
  }
}
