/**
 * Device selection (`get_device_list` in config-builder.py): either the
 * comma-separated `--devices` value, split verbatim, or every file of the
 * template directory whose name the anchored `--pattern` matches, in
 * listing order.  The directory listing is an input sequence and the regex
 * engine is the parameter `rematch(pattern, name)`.
 */
module DeviceSelection {
  import opened Wrappers
  import opened Arguments

  /** Number of occurrences of `c` in `s`. */
  function Count(s: string, c: char): nat
  {
    if s == [] then 0 else (if s[0] == c then 1 else 0) + Count(s[1..], c)
  }

  /**
   * `s.split(sep)` for a one-character separator: one piece more than there
   * are separators, no piece holding the separator, empty pieces kept.
   */
  function Split(s: string, sep: char): (r: seq<string>)
    ensures |r| == Count(s, sep) + 1
    ensures forall i :: 0 <= i < |r| ==> sep !in r[i]
    decreases |s|
  {
    if s == [] then [""]
    else
      var rest := Split(s[1..], sep);
      if s[0] == sep then [""] + rest
      else [[s[0]] + rest[0]] + rest[1..]
  }

  /** `sep.join(pieces)` for a non-empty list of pieces. */
  function Join(pieces: seq<string>, sep: char): string
    requires |pieces| >= 1
    decreases |pieces|
  {
    if |pieces| == 1 then pieces[0] else pieces[0] + [sep] + Join(pieces[1..], sep)
  }

  lemma {:induction false} JoinConsFirst(c: char, pieces: seq<string>, sep: char)
    requires |pieces| >= 1
    ensures Join([[c] + pieces[0]] + pieces[1..], sep) == [c] + Join(pieces, sep)
  {
    var p := [[c] + pieces[0]] + pieces[1..];
    assert p[1..] == pieces[1..];
  }

  /** Joining the pieces of a split with the same separator gives back the string. */
  lemma {:induction false} JoinSplit(s: string, sep: char)
    ensures Join(Split(s, sep), sep) == s
    decreases |s|
  {
    if s != [] {
      var rest := Split(s[1..], sep);
      JoinSplit(s[1..], sep);
      if s[0] == sep {
        assert ([""] + rest)[1..] == rest;
        assert Join([""] + rest, sep) == [sep] + Join(rest, sep);
      } else {
        JoinConsFirst(s[0], rest, sep);
      }
      assert s == [s[0]] + s[1..];
    }
  }

  /** Splitting a join of separator-free pieces gives back the pieces, in order and with repeats. */
  lemma {:induction false} SplitJoin(pieces: seq<string>, sep: char)
    requires |pieces| >= 1
    requires forall i :: 0 <= i < |pieces| ==> sep !in pieces[i]
    ensures Split(Join(pieces, sep), sep) == pieces
    decreases |pieces|, |pieces[0]|
  {
    var p := pieces[0];
    if p == [] {
      if |pieces| > 1 {
        SplitJoin(pieces[1..], sep);
        var j := Join(pieces, sep);
        assert j == [sep] + Join(pieces[1..], sep);
        assert j[1..] == Join(pieces[1..], sep);
        assert pieces == [""] + pieces[1..];
      }
    } else {
      var tail := [p[1..]] + pieces[1..];
      assert tail[1..] == pieces[1..];
      forall i | 0 <= i < |tail| ensures sep !in tail[i] {
        if i == 0 {
          assert forall k :: 0 <= k < |p[1..]| ==> p[1..][k] == p[k + 1];
        }
      }
      SplitJoin(tail, sep);
      JoinConsFirst(p[0], tail, sep);
      assert [p[0]] + tail[0] == p;
      assert [[p[0]] + tail[0]] + tail[1..] == pieces;
      var j := Join(pieces, sep);
      assert j == [p[0]] + Join(tail, sep);
      assert j[0] == p[0] && j[1..] == Join(tail, sep);
      assert j[0] != sep;
    }
  }

  lemma SplitOneChar(c: char, sep: char)
    requires c != sep
    ensures Split([c], sep) == [[c]]
  {
    assert [c][1..] == "";
    assert [c] + "" == [c];
  }

  /** "a,,b" keeps its empty middle piece. */
  lemma SplitKeepsEmptyPieces()
    ensures Split("a,,b", ',') == ["a", "", "b"]
  {
    assert Split("b", ',') == ["b"] by { SplitOneChar('b', ','); }
    assert Split(",b", ',') == ["", "b"] by { assert ",b"[1..] == "b"; }
    assert Split(",,b", ',') == ["", "", "b"] by { assert ",,b"[1..] == ",b"; }
    assert "a,,b"[1..] == ",,b";
    assert ['a'] + "" == "a";
  }

  /** "r1,r1" yields its repeated name twice. */
  lemma SplitKeepsRepeats()
    ensures Split("r1,r1", ',') == ["r1", "r1"]
  {
    assert Split("1", ',') == ["1"] by { SplitOneChar('1', ','); }
    assert Split("r1", ',') == ["r1"] by {
      assert "r1"[1..] == "1";
      assert ['r'] + "1" == "r1";
    }
    assert Split(",r1", ',') == ["", "r1"] by { assert ",r1"[1..] == "r1"; }
    assert Split("1,r1", ',') == ["1", "r1"] by { assert "1,r1"[1..] == ",r1"; }
    assert "r1,r1"[1..] == "1,r1";
  }

  /** `'^' + pattern + '$'`: the pattern anchored at both ends. */
  function Anchored(pattern: string): string
  {
    "^" + pattern + "$"
  }

  /** The entries of `listing` that `rematch(pattern, _)` accepts, in listing order. */
  function Matching(listing: seq<string>, pattern: string, rematch: (string, string) -> bool): (r: seq<string>)
    ensures |r| <= |listing|
    ensures forall i :: 0 <= i < |r| ==> r[i] in listing && rematch(pattern, r[i])
  {
    if listing == [] then []
    else (if rematch(pattern, listing[0]) then [listing[0]] else []) + Matching(listing[1..], pattern, rematch)
  }

  lemma {:induction false} MatchingAppend(a: seq<string>, b: seq<string>, pattern: string, rematch: (string, string) -> bool)
    ensures Matching(a + b, pattern, rematch) == Matching(a, pattern, rematch) + Matching(b, pattern, rematch)
    decreases |a|
  {
    if a != [] {
      assert (a + b)[1..] == a[1..] + b;
      MatchingAppend(a[1..], b, pattern, rematch);
    } else {
      assert a + b == b;
    }
  }

  /** `a` is `b` with some entries left out, the rest kept in order. */
  predicate IsSubsequence(a: seq<string>, b: seq<string>)
    decreases |b|
  {
    if a == [] then true
    else if b == [] then false
    else if a[0] == b[0] then IsSubsequence(a[1..], b[1..])
    else IsSubsequence(a, b[1..])
  }

  /** The selection is a subsequence of the listing: order is the listing's. */
  lemma {:induction false} MatchingIsSubsequence(listing: seq<string>, pattern: string, rematch: (string, string) -> bool)
    ensures IsSubsequence(Matching(listing, pattern, rematch), listing)
    decreases |listing|
  {
    if listing != [] {
      MatchingIsSubsequence(listing[1..], pattern, rematch);
      var rest := Matching(listing[1..], pattern, rematch);
      if rematch(pattern, listing[0]) {
        assert ([listing[0]] + rest)[1..] == rest;
      } else {
        assert Matching(listing, pattern, rematch) == rest;
        SubsequenceOfTail(rest, listing);
      }
    }
  }

  lemma {:induction false} SubsequenceOfTail(a: seq<string>, b: seq<string>)
    requires b != []
    requires IsSubsequence(a, b[1..])
    ensures IsSubsequence(a, b)
    decreases |b|, |a|, 1
  {
    if a != [] && a[0] == b[0] {
      SubsequenceDropFirst(a, b[1..]);
    }
  }

  lemma {:induction false} SubsequenceDropFirst(a: seq<string>, b: seq<string>)
    requires a != []
    requires IsSubsequence(a, b)
    ensures IsSubsequence(a[1..], b)
    decreases |b| + 1, |a|, 0
  {
    assert b != [];
    if a[0] == b[0] {
      SubsequenceOfTail(a[1..], b);
    } else {
      SubsequenceDropFirst(a, b[1..]);
      SubsequenceOfTail(a[1..], b);
    }
  }

  /**
   * A name is selected exactly as often as it is listed when the anchored
   * pattern accepts it, and never otherwise.
   */
  lemma {:induction false} MatchingCounts(listing: seq<string>, pattern: string, rematch: (string, string) -> bool, name: string)
    ensures multiset(Matching(listing, pattern, rematch))[name]
         == if rematch(pattern, name) then multiset(listing)[name] else 0
    decreases |listing|
  {
    if listing != [] {
      MatchingCounts(listing[1..], pattern, rematch, name);
      assert listing == [listing[0]] + listing[1..];
    }
  }

  /** Membership both ways: selected iff listed and accepted. */
  lemma {:induction false} MatchingMembers(listing: seq<string>, pattern: string, rematch: (string, string) -> bool, name: string)
    ensures name in Matching(listing, pattern, rematch) <==> name in listing && rematch(pattern, name)
  {
    MatchingCounts(listing, pattern, rematch, name);
    assert name in Matching(listing, pattern, rematch) <==> multiset(Matching(listing, pattern, rematch))[name] > 0;
    assert name in listing <==> multiset(listing)[name] > 0;
  }

  /** An empty listing, or one the pattern matches nowhere, selects nothing and is not an error. */
  lemma {:induction false} NoMatchSelectsNothing(listing: seq<string>, pattern: string, rematch: (string, string) -> bool)
    requires forall i :: 0 <= i < |listing| ==> !rematch(pattern, listing[i])
    ensures Matching(listing, pattern, rematch) == []
  {
    var m := Matching(listing, pattern, rematch);
    if m != [] {
      MatchingMembers(listing, pattern, rematch, m[0]);
    }
  }

  /**
   * What `get_device_list` returns: the split `--devices` value when it is
   * truthy (the pattern is then ignored), otherwise the matching listing
   * entries when `--pattern` is truthy, otherwise None.
   */
  function DeviceList(args: Args, listing: seq<string>, rematch: (string, string) -> bool): (r: Option<seq<string>>)
    ensures r.None? <==> !Truthy(args.devices) && !Truthy(args.pattern)
    ensures r.Some? && Truthy(args.devices) ==> |r.value| >= 1 && Join(r.value, ',') == args.devices.value
    ensures r.Some? && !Truthy(args.devices) ==>
      forall i :: 0 <= i < |r.value| ==> r.value[i] in listing && rematch(Anchored(args.pattern.value), r.value[i])
  {
    if Truthy(args.devices) then JoinSplit(args.devices.value, ','); Some(Split(args.devices.value, ','))
    else if Truthy(args.pattern) then Some(Matching(listing, Anchored(args.pattern.value), rematch))
    else None
  }

  /**
   * `get_device_list(args)` with the template directory listing `listing`;
   * the pattern branch appends matching names in a loop as the script does.
   */
  method GetDeviceList(args: Args, listing: seq<string>, rematch: (string, string) -> bool)
    returns (r: Option<seq<string>>)
    ensures r == DeviceList(args, listing, rematch)
    ensures r.None? <==> !Truthy(args.devices) && !Truthy(args.pattern)
    ensures Truthy(args.devices) ==> r == Some(Split(args.devices.value, ','))
  {
    if Truthy(args.devices) {
      return Some(Split(args.devices.value, ','));
    }
    if Truthy(args.pattern) {
      var pattern := Anchored(args.pattern.value);
      var deviceList: seq<string> := [];
      for i := 0 to |listing|
        invariant deviceList == Matching(listing[..i], pattern, rematch)
      {
        var file := listing[i];
        MatchingAppend(listing[..i], [file], pattern, rematch);
        assert listing[..i + 1] == listing[..i] + [file];
        if rematch(pattern, file) {
          deviceList := deviceList + [file];
        }
      }
      assert listing[..|listing|] == listing;
      return Some(deviceList);
    }
    return None;
  }
}
