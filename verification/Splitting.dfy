/** Searching and splitting strings (util.h, std::string::find). */
module Splitting {

  /** No occurrence of the character. */
  predicate Free(s: string, c: char) {
    forall i :: 0 <= i < |s| ==> s[i] != c
  }

  /** std::string::find: the first occurrence from a position on, or -1 for npos. */
  function Find(s: string, c: char, from: nat): (i: int)
    ensures i == -1 || from <= i < |s|
    decreases |s| - from
  {
    if from >= |s| then -1
    else if s[from] == c then from
    else Find(s, c, from + 1)
  }

  lemma {:induction false} FindSpec(s: string, c: char, from: nat)
    ensures var i := Find(s, c, from);
            && (i >= 0 ==> s[i] == c && forall j :: from <= j < i ==> s[j] != c)
            && (i == -1 ==> forall j :: from <= j < |s| ==> s[j] != c)
    decreases |s| - from
  {
    if from < |s| && s[from] != c {
      FindSpec(s, c, from + 1);
    }
  }

  function Split(s: string, sep: char): (parts: seq<string>)
    ensures |parts| > 0
    decreases |s|
  {
    var i := Find(s, sep, 0);
    if i < 0 then [s] else [s[..i]] + Split(s[i + 1..], sep)
  }

  function Join(parts: seq<string>, sep: char): string {
    if parts == [] then ""
    else if |parts| == 1 then parts[0]
    else parts[0] + [sep] + Join(parts[1..], sep)
  }

  ghost predicate AllFree(parts: seq<string>, c: char) {
    forall i :: 0 <= i < |parts| ==> Free(parts[i], c)
  }

  /** The text before and after the first separator of a + sep + rest. */
  lemma Cut(a: string, sep: char, rest: string)
    ensures (a + [sep] + rest)[..|a|] == a && (a + [sep] + rest)[|a| + 1..] == rest
  {
  }

  lemma SliceOfTail(s: string, x: nat, y: nat)
    requires x <= y <= |s|
    ensures s[x..y] == s[x..][..y - x] && s[y..] == s[x..][y - x..]
  {
  }

  lemma AllFreeSplit(parts: seq<string>, c: char)
    requires parts != [] && AllFree(parts, c)
    ensures AllFree(parts[..|parts| - 1], c) && Free(parts[|parts| - 1], c)
  {
  }

  lemma FindFirst(a: string, sep: char, rest: string)
    requires Free(a, sep)
    ensures Find(a + [sep] + rest, sep, 0) == |a|
  {
    var s := a + [sep] + rest;
    FindSpec(s, sep, 0);
    assert s[|a|] == sep;
    assert forall j :: 0 <= j < |a| ==> s[j] == a[j];
  }

  lemma FindAbsent(s: string, c: char)
    ensures Find(s, c, 0) == -1 <==> Free(s, c)
  {
    FindSpec(s, c, 0);
  }

  lemma JoinCons(head: string, tail: seq<string>, sep: char)
    requires tail != []
    ensures Join([head] + tail, sep) == head + [sep] + Join(tail, sep)
  {
    assert ([head] + tail)[1..] == tail;
  }

  lemma AllFreeCons(head: string, tail: seq<string>, c: char)
    requires Free(head, c) && AllFree(tail, c)
    ensures AllFree([head] + tail, c)
  {
    hide Free;
  }

  /** The text before the first separator and the text after it. */
  lemma FindCuts(s: string, sep: char)
    ensures var i := Find(s, sep, 0);
            i >= 0 ==> s == s[..i] + [sep] + s[i + 1..] && Free(s[..i], sep)
  {
    FindSpec(s, sep, 0);
  }

  lemma FindCutsFrom(s: string, sep: char, from: nat)
    requires from <= |s|
    ensures var i := Find(s, sep, from);
            i >= 0 ==> s[from..] == s[from..i] + [sep] + s[i + 1..] && Free(s[from..i], sep)
  {
    FindSpec(s, sep, from);
    hide Find;
  }

  lemma FreeParts(s: string, i: nat, c: char)
    requires i < |s| && Free(s, c)
    ensures Free(s[..i], c) && Free(s[i + 1..], c)
  {
  }

  lemma AllFreeOne(s: string, c: char)
    requires Free(s, c)
    ensures AllFree([s], c)
  {
  }

  lemma SplitOnce(s: string, sep: char)
    ensures var i := Find(s, sep, 0);
            Split(s, sep) == if i < 0 then [s] else [s[..i]] + Split(s[i + 1..], sep)
  {
  }

  /** Splitting a string and joining the pieces gives it back; the pieces have no separator
      and no character the string does not have. */
  lemma {:induction false} SplitJoins(s: string, sep: char)
    ensures Join(Split(s, sep), sep) == s
    ensures AllFree(Split(s, sep), sep)
    decreases |s|
  {
    var i := Find(s, sep, 0);
    FindCuts(s, sep);
    SplitOnce(s, sep);
    hide Find, Split;
    if i >= 0 {
      hide Free, AllFree, Join;
      SplitJoins(s[i + 1..], sep);
      JoinCons(s[..i], Split(s[i + 1..], sep), sep);
      AllFreeCons(s[..i], Split(s[i + 1..], sep), sep);
    } else {
      FindAbsent(s, sep);
      AllFreeOne(s, sep);
    }
  }

  lemma {:induction false} SplitKeepsFree(s: string, sep: char, c: char)
    requires Free(s, c)
    ensures AllFree(Split(s, sep), c)
    decreases |s|
  {
    hide Free, AllFree;
    var i := Find(s, sep, 0);
    if i >= 0 {
      FreeParts(s, i, c);
      SplitKeepsFree(s[i + 1..], sep, c);
      AllFreeCons(s[..i], Split(s[i + 1..], sep), c);
    } else {
      AllFreeOne(s, c);
    }
  }

  /** Joining pieces without the separator and splitting gives the pieces back. */
  lemma {:induction false} JoinSplits(parts: seq<string>, sep: char)
    requires parts != [] && AllFree(parts, sep)
    ensures Split(Join(parts, sep), sep) == parts
    decreases |parts|
  {
    var s := Join(parts, sep);
    if |parts| == 1 {
      assert Free(parts[0], sep);
      FindAbsent(s, sep);
    } else {
      assert Free(parts[0], sep);
      FindFirst(parts[0], sep, Join(parts[1..], sep));
      assert s[..|parts[0]|] == parts[0];
      assert s[|parts[0]| + 1..] == Join(parts[1..], sep);
      assert forall i :: 0 <= i < |parts[1..]| ==> parts[1..][i] == parts[i + 1];
      JoinSplits(parts[1..], sep);
    }
  }

  lemma JoinInjective(a: seq<string>, b: seq<string>, sep: char)
    requires a != [] && b != [] && AllFree(a, sep) && AllFree(b, sep)
    ensures Join(a, sep) == Join(b, sep) <==> a == b
  {
    JoinSplits(a, sep);
    JoinSplits(b, sep);
  }

  lemma {:induction false} JoinKeepsFree(parts: seq<string>, sep: char, c: char)
    requires AllFree(parts, c) && sep != c
    ensures Free(Join(parts, sep), c)
    decreases |parts|
  {
    if |parts| > 1 {
      assert forall i :: 0 <= i < |parts[1..]| ==> parts[1..][i] == parts[i + 1];
      assert Free(parts[0], c);
      JoinKeepsFree(parts[1..], sep, c);
    } else if |parts| == 1 {
      assert Free(parts[0], c);
    }
  }

  lemma FreeConcat(a: string, b: string, c: char)
    ensures Free(a + b, c) <==> Free(a, c) && Free(b, c)
  {
    if Free(a + b, c) {
      assert forall i :: 0 <= i < |a| ==> a[i] == (a + b)[i];
      assert forall i :: 0 <= i < |b| ==> b[i] == (a + b)[i + |a|];
    }
  }

  lemma {:induction false} JoinSnoc(parts: seq<string>, last: string, sep: char)
    requires parts != []
    ensures Join(parts + [last], sep) == Join(parts, sep) + [sep] + last
    decreases |parts|
  {
    if |parts| == 1 {
      assert (parts + [last])[1..] == [last];
    } else {
      assert (parts + [last])[1..] == parts[1..] + [last];
      JoinSnoc(parts[1..], last, sep);
    }
  }

  lemma {:induction false} JoinLength(parts: seq<string>, sep: char)
    requires parts != []
    ensures |Join(parts, sep)| == TotalLength(parts) + |parts| - 1
    decreases |parts|
  {
    if |parts| > 1 {
      JoinLength(parts[1..], sep);
    }
  }

  function TotalLength(parts: seq<string>): nat {
    if parts == [] then 0 else |parts[0]| + TotalLength(parts[1..])
  }

  lemma SplitAt(s: string, sep: char, i: nat, head: string, tail: string)
    requires Find(s, sep, 0) == i && i < |s| && s[..i] == head && s[i + 1..] == tail
    ensures Split(s, sep) == [head] + Split(tail, sep)
  {
    hide Find;
  }

  /** std::string::substr, from a position to the end and between two positions. */
  function Tail(s: string, at: nat): string
    requires at <= |s|
  {
    s[at..]
  }

  function Part(s: string, from: nat, to: nat): string
    requires from <= to <= |s|
  {
    s[from..to]
  }

  lemma TailCut(s: string, pos: nat, p: nat)
    requires pos <= p < |s|
    ensures |Tail(s, pos)| == |s| - pos
    ensures Tail(s, pos)[..p - pos] == Part(s, pos, p) && Tail(s, pos)[p - pos + 1..] == Tail(s, p + 1)
  {
  }

  lemma FindInTailOf(s: string, sep: char, pos: nat)
    requires pos <= |s|
    ensures Find(s, sep, pos) == if Find(Tail(s, pos), sep, 0) < 0 then -1 else Find(Tail(s, pos), sep, 0) + pos
  {
    FindShift(s, sep, pos);
  }

  /** The pieces from a position on, by the next separator found from there. */
  lemma SplitFrom(s: string, sep: char, pos: nat)
    requires pos <= |s|
    ensures var p := Find(s, sep, pos);
            Split(Tail(s, pos), sep)
            == if p < 0 then [Tail(s, pos)] else [Part(s, pos, p)] + Split(Tail(s, p + 1), sep)
  {
    FindInTailOf(s, sep, pos);
    hide Find, Split, Tail, Part;
    var p := Find(s, sep, pos);
    if p < 0 {
      SplitOnce(Tail(s, pos), sep);
    } else {
      TailCut(s, pos, p);
      SplitAt(Tail(s, pos), sep, p - pos, Part(s, pos, p), Tail(s, p + 1));
    }
  }

  lemma WholeTail(s: string)
    ensures Tail(s, 0) == s
  {
  }

  lemma Regroup(v: seq<string>, tok: string, more: seq<string>)
    ensures v + ([tok] + more) == v + [tok] + more
  {
  }

  /** The loop of Util::split: one token per round, up to the end of the string. */
  method SplitLoop(s: string, sep: char) returns (v: seq<string>)
    ensures v == Split(s, sep)
  {
    hide Find, Split, Tail, Part;
    v := [];
    var pos, done := 0, false;
    WholeTail(s);
    while !done
      invariant pos <= |s|
      invariant Split(s, sep) == if done then v else v + Split(Tail(s, pos), sep)
      decreases if done then 0 else 1, |s| - pos
    {
      SplitFrom(s, sep, pos);
      var sepPos := Find(s, sep, pos);
      var tok;
      if sepPos == -1 {
        tok := Tail(s, pos);
        done := true;
      } else {
        tok := Part(s, pos, sepPos);
        pos := sepPos + 1;
        Regroup(v, tok, Split(Tail(s, pos), sep));
      }
      v := v + [tok];
    }
  }

  lemma {:induction false} FindInTail(s: string, c: char, pos: nat, k: nat)
    requires pos + k <= |s|
    ensures Find(s, c, pos + k) == if Find(s[pos..], c, k) < 0 then -1 else Find(s[pos..], c, k) + pos
    decreases |s| - pos - k
  {
    if pos + k < |s| {
      assert s[pos..][k] == s[pos + k];
      FindInTail(s, c, pos, k + 1);
    }
  }

  /** Searching from a position is searching the rest of the string. */
  lemma FindShift(s: string, c: char, pos: nat)
    requires pos <= |s|
    ensures Find(s, c, pos) == if Find(s[pos..], c, 0) < 0 then -1 else Find(s[pos..], c, 0) + pos
  {
    FindInTail(s, c, pos, 0);
  }
}
