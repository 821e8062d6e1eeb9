// Command-line "-key value" parsing (Core/Util/CommandLineArg.cpp).  The
// namespace-global argument map is the one field of an ArgumentMap object;
// argv is a sequence of strings, index 0 being the executable name.
module CommandLine {
  import opened Wrappers

  /** A token that names a key: its first character is '-' (an empty token's first character is the terminator). */
  predicate IsDash(token: string)
  {
    |token| > 0 && token[0] == '-'
  }

  /** Position i is read as a key when it is a dash token with another token after it. */
  predicate IsKeyAt(args: seq<string>, i: nat)
  {
    i + 1 < |args| && IsDash(args[i])
  }

  /** The position the scan reads after i: a key consumes the following token as its value. */
  function Next(args: seq<string>, i: nat): (j: nat)
    ensures j == i + 1 || (j == i + 2 && IsKeyAt(args, i))
  {
    if IsKeyAt(args, i) then i + 2 else i + 1
  }

  /** The scan started at i reads position j. */
  predicate Visits(args: seq<string>, i: nat, j: nat)
    decreases if i <= j then j - i else 0
  {
    i == j || (i < j && Visits(args, Next(args, i), j))
  }

  /** The map the scan produces from position i onward, starting from acc. */
  function GatherFrom(args: seq<string>, i: nat, acc: map<string, string>): map<string, string>
    decreases |args| - i
  {
    if i >= |args| then acc
    else if IsKeyAt(args, i) then GatherFrom(args, i + 2, acc[args[i][1..] := args[i + 1]])
    else GatherFrom(args, i + 1, acc)
  }

  /**
   * A key ends up in the map iff it was there before or the scan reads a
   * "-key" token with a token after it: non-dash tokens and a trailing dash
   * token record nothing.
   */
  lemma {:induction false} GatherKeys(args: seq<string>, i: nat, acc: map<string, string>, k: string)
    ensures k in GatherFrom(args, i, acc) <==>
      k in acc || exists j: nat :: Visits(args, i, j) && IsKeyAt(args, j) && args[j][1..] == k
    decreases |args| - i
  {
    if i < |args| {
      var acc' := if IsKeyAt(args, i) then acc[args[i][1..] := args[i + 1]] else acc;
      GatherKeys(args, Next(args, i), acc', k);
      if k in GatherFrom(args, i, acc) && k !in acc {
        if k in acc' {
          assert Visits(args, i, i) && IsKeyAt(args, i) && args[i][1..] == k;
        } else {
          var j: nat :| Visits(args, Next(args, i), j) && IsKeyAt(args, j) && args[j][1..] == k;
          assert Visits(args, i, j);
        }
      }
      if exists j: nat :: Visits(args, i, j) && IsKeyAt(args, j) && args[j][1..] == k {
        var j: nat :| Visits(args, i, j) && IsKeyAt(args, j) && args[j][1..] == k;
        if j != i {
          assert Visits(args, Next(args, i), j);
        }
      }
    }
  }

  /**
   * A pair the scan reads last wins: when the final two tokens are read as
   * "-key value", the key maps to that value whatever was recorded for it
   * earlier.
   */
  lemma {:induction false} LastPairWins(args: seq<string>, i: nat, acc: map<string, string>)
    requires |args| >= 2 && Visits(args, i, |args| - 2) && IsKeyAt(args, |args| - 2)
    ensures var k := args[|args| - 2][1..];
      k in GatherFrom(args, i, acc) && GatherFrom(args, i, acc)[k] == args[|args| - 1]
    decreases |args| - i
  {
    if i < |args| - 2 {
      var acc' := if IsKeyAt(args, i) then acc[args[i][1..] := args[i + 1]] else acc;
      LastPairWins(args, Next(args, i), acc');
    }
  }

  /** The scan from i reads j as a key naming k, and reads no later key naming k. */
  ghost predicate LastKeyFor(args: seq<string>, i: nat, j: nat, k: string)
  {
    Visits(args, i, j) && IsKeyAt(args, j) && args[j][1..] == k &&
    forall j': nat :: j < j' && Visits(args, i, j') && IsKeyAt(args, j') ==> args[j'][1..] != k
  }

  /**
   * A key no pair of the scan names keeps whatever acc recorded for it:
   * present with the same value, or absent.
   */
  lemma {:induction false} GatherUntouched(args: seq<string>, i: nat, acc: map<string, string>, k: string)
    requires forall j: nat :: Visits(args, i, j) && IsKeyAt(args, j) ==> args[j][1..] != k
    ensures k in GatherFrom(args, i, acc) <==> k in acc
    ensures k in acc ==> GatherFrom(args, i, acc)[k] == acc[k]
    decreases |args| - i
  {
    if i < |args| {
      var acc' := if IsKeyAt(args, i) then acc[args[i][1..] := args[i + 1]] else acc;
      assert Visits(args, i, i);
      forall j: nat | Visits(args, Next(args, i), j) && IsKeyAt(args, j)
        ensures args[j][1..] != k
      {
        assert Visits(args, i, j);
      }
      GatherUntouched(args, Next(args, i), acc', k);
    }
  }

  /**
   * The value a key ends up with is the token after the last "-key" the scan
   * reads for it: a later pair overwrites an earlier one wherever it stands.
   */
  lemma {:induction false} GatherValue(args: seq<string>, i: nat, j: nat, acc: map<string, string>, k: string)
    requires LastKeyFor(args, i, j, k)
    ensures k in GatherFrom(args, i, acc) && GatherFrom(args, i, acc)[k] == args[j + 1]
    decreases |args| - i
  {
    var acc' := if IsKeyAt(args, i) then acc[args[i][1..] := args[i + 1]] else acc;
    if i == j {
      forall j': nat | Visits(args, Next(args, i), j') && IsKeyAt(args, j')
        ensures args[j'][1..] != k
      {
        assert Visits(args, i, j');
      }
      GatherUntouched(args, Next(args, i), acc', k);
    } else {
      forall j': nat | j < j' && Visits(args, Next(args, i), j') && IsKeyAt(args, j')
        ensures args[j'][1..] != k
      {
        assert Visits(args, i, j');
      }
      GatherValue(args, Next(args, i), j, acc', k);
    }
  }

  /** A key consumes the next token as its value, even a token that starts with '-'. */
  lemma {:induction false} ValueConsumed(args: seq<string>, i: nat, j: nat)
    requires Visits(args, i, j) && IsKeyAt(args, j)
    ensures !Visits(args, i, j + 1)
    decreases j - i
  {
    if i < j {
      ValueConsumed(args, Next(args, i), j);
    }
  }

  class ArgumentMap {
    var entries: map<string, string>

    constructor ()
      ensures entries == map[]
    {
      entries := map[];
    }

    /**
     * GatherArgs: with more than one argument, scan argv from index 0 and
     * record each "-key value" pair, a later pair overwriting an earlier one.
     */
    method GatherArgs(args: seq<string>)
      modifies this
      ensures |args| <= 1 ==> entries == old(entries)
      ensures |args| > 1 ==> entries == GatherFrom(args, 0, old(entries))
      ensures |args| > 1 ==> forall j: nat, k :: LastKeyFor(args, 0, j, k) ==> k in entries && entries[k] == args[j + 1]
    {
      if |args| > 1 {
        var i := 0;
        while i < |args|
          invariant i <= |args|
          invariant GatherFrom(args, i, entries) == GatherFrom(args, 0, old(entries))
        {
          var key := args[i];
          i := i + 1;
          if i < |args| && IsDash(key) {
            entries := entries[key[1..] := args[i]];
            i := i + 1;
          }
        }
        forall j: nat, k | LastKeyFor(args, 0, j, k)
          ensures k in entries && entries[k] == args[j + 1]
        {
          GatherValue(args, 0, j, old(entries), k);
        }
      }
    }

    /** Lookup: the value recorded for key, if any. */
    function Lookup(key: string): (r: Option<string>)
      reads this
      ensures r.Some? <==> key in entries
      ensures r.Some? ==> r.value == entries[key]
    {
      if key in entries then Some(entries[key]) else None
    }

    /** GetString: true and the recorded value when the key was recorded, else false and the value left as it was. */
    method GetString(key: string, value: string) returns (found: bool, result: string)
      ensures found <==> key in entries
      ensures found ==> result == entries[key]
      ensures !found ==> result == value
    {
      match Lookup(key)
      case Some(v) => found, result := true, v;
      case None => found, result := false, value;
    }
  }
}
