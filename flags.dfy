/**
 * The command-line flag parser of the `dns add` command: `--k=v`, `--k v` and
 * bare `--k` arguments fill a key -> value map; other arguments are skipped.
 */
module Flags {
  import opened GoStrings

  /** An argument that names a flag: it starts with "--". */
  predicate IsFlag(arg: string)
  {
    HasPrefix(arg, "--")
  }

  /** A flag written without '=': it may take the following argument as its value. */
  predicate IsBareFlag(arg: string)
  {
    IsFlag(arg) && '=' !in arg
  }

  /** The key a flag argument assigns. */
  function Key(arg: string): string
    requires IsFlag(arg)
  {
    var idx := Index(arg, '=');
    if idx != -1 then TrimPrefix(arg[..idx], "--") else TrimPrefix(arg, "--")
  }

  /** The value the flag argument args[i] assigns to its key. */
  function Assigned(args: seq<string>, i: nat): string
    requires i < |args| && IsFlag(args[i])
  {
    var idx := Index(args[i], '=');
    if idx != -1 then args[i][idx + 1..]
    else if i + 1 < |args| && !IsFlag(args[i + 1]) then args[i + 1]
    else "true"
  }

  /** The keys of the flag arguments among args[..n]. */
  function FlagKeys(args: seq<string>, n: nat): set<string>
    requires n <= |args|
  {
    set j | 0 <= j < n && IsFlag(args[j]) :: Key(args[j])
  }

  /** The position of the last flag argument for key k in args[..n], or -1. */
  function LastFlag(args: seq<string>, n: nat, k: string): (r: int)
    requires n <= |args|
    ensures -1 <= r < n
    ensures r >= 0 ==> IsFlag(args[r]) && Key(args[r]) == k
    ensures forall j :: r < j < n && IsFlag(args[j]) ==> Key(args[j]) != k
  {
    if n == 0 then -1
    else if IsFlag(args[n - 1]) && Key(args[n - 1]) == k then n - 1
    else LastFlag(args, n - 1, k)
  }

  /**
   * What the flags among args[..n] assign, read left to right: each flag
   * argument sets its key to its value, overriding any earlier assignment;
   * other arguments assign nothing.
   */
  function FlagsBefore(args: seq<string>, n: nat): map<string, string>
    requires n <= |args|
  {
    if n == 0 then map[]
    else if IsFlag(args[n - 1]) then FlagsBefore(args, n - 1)[Key(args[n - 1]) := Assigned(args, n - 1)]
    else FlagsBefore(args, n - 1)
  }

  /** What parseFlags returns for args. */
  function Flags(args: seq<string>): map<string, string>
  {
    FlagsBefore(args, |args|)
  }

  /** parseFlags: one pass over args, skipping the values it consumes. */
  method ParseFlags(args: seq<string>) returns (out: map<string, string>)
    ensures out == Flags(args)
  {
    out := map[];
    var i := 0;
    while i < |args|
      invariant 0 <= i <= |args|
      invariant out == FlagsBefore(args, i)
    {
      var arg := args[i];
      if !HasPrefix(arg, "--") {
        assert FlagsBefore(args, i + 1) == FlagsBefore(args, i);
        i := i + 1;
        continue;
      }
      assert FlagsBefore(args, i + 1) == FlagsBefore(args, i)[Key(arg) := Assigned(args, i)];
      var idx := Index(arg, '=');
      if idx != -1 {
        out := out[TrimPrefix(arg[..idx], "--") := arg[idx + 1..]];
        i := i + 1;
        continue;
      }
      var key := TrimPrefix(arg, "--");
      if i + 1 < |args| && !HasPrefix(args[i + 1], "--") {
        assert FlagsBefore(args, i + 2) == FlagsBefore(args, i + 1);
        out := out[key := args[i + 1]];
        i := i + 1;
      } else {
        out := out[key := "true"];
      }
      i := i + 1;
    }
  }

  /** LastFlag is pinned down by its contract. */
  lemma LastFlagIs(args: seq<string>, n: nat, k: string, r: int)
    requires n <= |args| && -1 <= r < n
    requires r >= 0 ==> IsFlag(args[r]) && Key(args[r]) == k
    requires forall j :: r < j < n && IsFlag(args[j]) ==> Key(args[j]) != k
    ensures LastFlag(args, n, k) == r
  {
  }

  /**
   * The keys parseFlags fills are exactly the keys of the flag arguments, and
   * each maps to the value of the last flag argument for it.
   */
  lemma FlagsBeforeMeaning(args: seq<string>, n: nat)
    requires n <= |args|
    ensures FlagsBefore(args, n).Keys == FlagKeys(args, n)
    ensures forall k :: k in FlagsBefore(args, n) ==>
      LastFlag(args, n, k) >= 0 && FlagsBefore(args, n)[k] == Assigned(args, LastFlag(args, n, k))
  {
    FlagsBeforeKeys(args, n);
    FlagsBeforeValues(args, n);
  }

  /** The keys of FlagsBefore are the keys of the flag arguments. */
  lemma {:induction false} FlagsBeforeKeys(args: seq<string>, n: nat)
    requires n <= |args|
    ensures FlagsBefore(args, n).Keys == FlagKeys(args, n)
  {
    if n > 0 {
      FlagsBeforeKeys(args, n - 1);
      if IsFlag(args[n - 1]) {
        assert FlagKeys(args, n) == FlagKeys(args, n - 1) + {Key(args[n - 1])};
      } else {
        assert FlagKeys(args, n) == FlagKeys(args, n - 1);
      }
    } else {
      assert FlagKeys(args, n) == {};
    }
  }

  /** Each key of FlagsBefore holds the value of the last flag argument for it. */
  lemma {:induction false} FlagsBeforeValues(args: seq<string>, n: nat)
    requires n <= |args|
    ensures forall k :: k in FlagsBefore(args, n) ==>
      LastFlag(args, n, k) >= 0 && FlagsBefore(args, n)[k] == Assigned(args, LastFlag(args, n, k))
  {
    if n > 0 {
      FlagsBeforeValues(args, n - 1);
      var prev := FlagsBefore(args, n - 1);
      var m := FlagsBefore(args, n);
      forall k | k in m
        ensures LastFlag(args, n, k) >= 0 && m[k] == Assigned(args, LastFlag(args, n, k))
      {
        if IsFlag(args[n - 1]) && Key(args[n - 1]) == k {
          assert LastFlag(args, n, k) == n - 1;
        } else {
          assert LastFlag(args, n, k) == LastFlag(args, n - 1, k);
          assert k in prev && m[k] == prev[k];
        }
      }
    }
  }

  /**
   * The key of a flag argument is the text between the leading "--" and the
   * first '=' (or the end): it holds no '=', and the argument is "--" + key,
   * possibly followed by '=' and more.
   */
  lemma KeyShape(arg: string)
    requires IsFlag(arg)
    ensures '=' !in Key(arg)
    ensures HasPrefix(arg, "--" + Key(arg))
    ensures |arg| == |Key(arg)| + 2 || arg[|Key(arg)| + 2] == '='
    ensures IsBareFlag(arg) ==> arg == "--" + Key(arg)
  {
    var idx := Index(arg, '=');
    if idx != -1 {
      assert arg[..idx][..2] == "--";
      assert arg[..idx][2..] == arg[2..idx];
      assert forall c :: c in arg[2..idx] ==> c in arg[..idx];
    } else {
      assert "--" + arg[2..] == arg;
    }
  }

  /** "--k=v" assigns v to k, whatever follows it; v may be empty or hold more '='. */
  lemma EqualsForm(args: seq<string>, i: nat, k: string, v: string)
    requires i < |args| && args[i] == "--" + k + "=" + v && '=' !in k
    ensures IsFlag(args[i]) && Key(args[i]) == k && Assigned(args, i) == v
  {
    var arg := args[i];
    assert arg[..2] == "--";
    assert arg[|k| + 2] == '=';
    assert forall j :: 0 <= j < |k| + 2 ==> arg[j] != '=' by {
      forall j | 0 <= j < |k| + 2 ensures arg[j] != '=' {
        if j >= 2 { assert arg[j] == k[j - 2]; }
      }
    }
    assert Index(arg, '=') == |k| + 2;
    assert arg[..|k| + 2] == "--" + k;
    assert arg[|k| + 3..] == v;
  }

  /**
   * A bare "--k" takes the next argument as its value when there is one that
   * is not itself a flag, and is "true" otherwise.
   */
  lemma BareForm(args: seq<string>, i: nat, k: string)
    requires i < |args| && args[i] == "--" + k && '=' !in k
    ensures IsBareFlag(args[i]) && Key(args[i]) == k
    ensures Assigned(args, i) == if i + 1 < |args| && !IsFlag(args[i + 1]) then args[i + 1] else "true"
  {
    var arg := args[i];
    assert arg[..2] == "--";
    assert arg[2..] == k;
    assert '=' !in arg by {
      forall j | 0 <= j < |arg| ensures arg[j] != '=' {
        if j >= 2 { assert arg[j] == k[j - 2]; }
      }
    }
  }

  /**
   * Every key in the result comes from a flag argument, as the text after its
   * "--" up to the first '=' or the end; and every flag argument's key is in
   * the result.
   */
  lemma FlagsKeysComeFromFlags(args: seq<string>)
    ensures forall k :: k in Flags(args) ==>
      exists j :: 0 <= j < |args| && IsFlag(args[j]) && '=' !in k && HasPrefix(args[j], "--" + k)
                  && (|args[j]| == |k| + 2 || args[j][|k| + 2] == '=')
    ensures forall j :: 0 <= j < |args| && IsFlag(args[j]) ==> Key(args[j]) in Flags(args)
  {
    FlagsBeforeMeaning(args, |args|);
    forall k | k in Flags(args)
      ensures exists j :: 0 <= j < |args| && IsFlag(args[j]) && '=' !in k && HasPrefix(args[j], "--" + k)
                          && (|args[j]| == |k| + 2 || args[j][|k| + 2] == '=')
    {
      var j := LastFlag(args, |args|, k);
      KeyShape(args[j]);
    }
  }

  /** A repeated key keeps its last assignment. */
  lemma LastAssignmentWins(args: seq<string>, j: nat)
    requires j < |args| && IsFlag(args[j])
    requires forall j' :: j < j' < |args| && IsFlag(args[j']) ==> Key(args[j']) != Key(args[j])
    ensures Key(args[j]) in Flags(args) && Flags(args)[Key(args[j])] == Assigned(args, j)
  {
    FlagsBeforeMeaning(args, |args|);
    LastFlagIs(args, |args|, Key(args[j]), j);
  }

  /** parseFlags reads a prefix of args the same way in any two lists that agree on it. */
  lemma {:induction false} FlagsBeforeCongruent(a: seq<string>, b: seq<string>, n: nat)
    requires n <= |a| && n <= |b|
    requires forall j :: 0 <= j < n ==> a[j] == b[j]
    requires forall j :: 0 <= j < n && IsFlag(a[j]) ==> Assigned(a, j) == Assigned(b, j)
    ensures FlagsBefore(a, n) == FlagsBefore(b, n)
  {
    if n > 0 {
      FlagsBeforeCongruent(a, b, n - 1);
    }
  }

  /** Appending "--k=v" sets k to v, overriding any earlier value, and changes nothing else. */
  lemma AppendAssignment(args: seq<string>, k: string, v: string)
    requires '=' !in k
    ensures Flags(args + ["--" + k + "=" + v]) == Flags(args)[k := v]
  {
    var b := args + ["--" + k + "=" + v];
    EqualsForm(b, |args|, k, v);
    assert IsFlag(b[|args|]);
    forall j | 0 <= j < |args| && IsFlag(args[j])
      ensures Assigned(args, j) == Assigned(b, j)
    {
      assert b[j] == args[j];
    }
    FlagsBeforeCongruent(args, b, |args|);
  }

  /**
   * An argument that is not a flag and is not consumed as a value (it is
   * first, or follows an argument that is not a bare flag) is ignored.
   */
  lemma InsertIgnored(args: seq<string>, p: nat, x: string)
    requires p <= |args| && !IsFlag(x)
    requires p == 0 || !IsBareFlag(args[p - 1])
    ensures Flags(args[..p] + [x] + args[p..]) == Flags(args)
  {
    var b := args[..p] + [x] + args[p..];
    assert |b| == |args| + 1;
    assert forall j :: 0 <= j < p ==> b[j] == args[j];
    assert b[p] == x;
    assert forall j :: p <= j < |args| ==> b[j + 1] == args[j];
    forall j | 0 <= j < p && IsFlag(args[j])
      ensures Assigned(args, j) == Assigned(b, j)
    {
      if j + 1 == p {
        assert '=' in args[j];
      }
    }
    FlagsBeforeCongruent(args, b, p);
    InsertShift(args, b, p, |args|);
  }

  /** Past the inserted argument, b reads one position later what args reads. */
  lemma {:induction false} InsertShift(args: seq<string>, b: seq<string>, p: nat, n: nat)
    requires p <= n <= |args| && |b| == |args| + 1 && !IsFlag(b[p])
    requires forall j :: p <= j < |args| ==> b[j + 1] == args[j]
    requires FlagsBefore(b, p) == FlagsBefore(args, p)
    ensures FlagsBefore(b, n + 1) == FlagsBefore(args, n)
    decreases n
  {
    if n > p {
      InsertShift(args, b, p, n - 1);
      assert b[n] == args[n - 1];
      if IsFlag(args[n - 1]) {
        AssignedShift(args, b, n - 1);
        assert FlagsBefore(b, n + 1) == FlagsBefore(b, n)[Key(b[n]) := Assigned(b, n)];
        assert FlagsBefore(args, n) == FlagsBefore(args, n - 1)[Key(args[n - 1]) := Assigned(args, n - 1)];
      } else {
        assert FlagsBefore(b, n + 1) == FlagsBefore(b, n);
        assert FlagsBefore(args, n) == FlagsBefore(args, n - 1);
      }
    } else {
      assert FlagsBefore(b, p + 1) == FlagsBefore(b, p);
    }
  }

  /** A flag argument and its successor, read one position later, assign the same value. */
  lemma AssignedShift(args: seq<string>, b: seq<string>, i: nat)
    requires i < |args| && |b| == |args| + 1 && IsFlag(args[i])
    requires b[i + 1] == args[i]
    requires i + 1 < |args| ==> b[i + 2] == args[i + 1]
    ensures IsFlag(b[i + 1]) && Assigned(b, i + 1) == Assigned(args, i)
  {
  }
}
