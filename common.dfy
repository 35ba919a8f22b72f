/** common.py: server selection from the `lounge` config value, `divide_chunks` and `flatten`. */
module Common {
  import opened Wrappers

  /** The three lounges the bot can serve (`common.Server`). */
  datatype Server = MKW | MK8DX | MKWorld

  /** `Server.name`: the enum member's name, as printed in log lines. */
  function ServerName(s: Server): string
  {
    match s
    case MKW => "MKW"
    case MK8DX => "MK8DX"
    case MKWorld => "MKWorld"
  }

  /** The module-level selection of `SERVER` from `CONFIG["lounge"]`; any other value is a ValueError. */
  function ServerFromLounge(lounge: string): (r: Result<Server, string>)
  {
    if lounge == "MKW" then Success(MKW)
    else if lounge == "MK8DX" then Success(MK8DX)
    else if lounge == "MKWorld" then Success(MKWorld)
    else Failure(lounge + " is not a valid option for the 'lounge' attribute in the config.")
  }

  /** Selection inverts naming: a lounge value is accepted exactly when it is the name of a server,
      and then it selects that server. */
  lemma ServerFromLoungeInvertsName(lounge: string)
    ensures ServerFromLounge(lounge).Success? <==> exists s: Server :: ServerName(s) == lounge
    ensures forall s: Server :: ServerFromLounge(lounge) == Success(s) <==> ServerName(s) == lounge
  {
    if lounge == "MKW" {
      assert ServerName(MKW) == lounge;
    } else if lounge == "MK8DX" {
      assert ServerName(MK8DX) == lounge;
    } else if lounge == "MKWorld" {
      assert ServerName(MKWorld) == lounge;
    }
  }

  /** `divide_chunks(list_, chunk_size)`: consecutive slices `list_[i:i + chunk_size]` for
      `i in range(0, len(list_), chunk_size)`. */
  function DivideChunks<T>(list: seq<T>, chunkSize: nat): (chunks: seq<seq<T>>)
    requires chunkSize > 0
    decreases |list|
  {
    if |list| == 0 then []
    else if |list| <= chunkSize then [list]
    else [list[..chunkSize]] + DivideChunks(list[chunkSize..], chunkSize)
  }

  /** The number of chunks is ceil(len / n): all chunks together hold at most n each, and without
      the last one they hold fewer than the whole list. */
  lemma {:induction false} DivideChunksCount<T>(list: seq<T>, n: nat)
    requires n > 0
    ensures (|DivideChunks(list, n)| - 1) * n < |list| <= |DivideChunks(list, n)| * n
    ensures list == [] <==> DivideChunks(list, n) == []
    decreases |list|
  {
    if |list| > n {
      DivideChunksCount(list[n..], n);
      var m := |DivideChunks(list[n..], n)|;
      assert |DivideChunks(list, n)| == m + 1;
      assert (m + 1) * n == m * n + n;
    }
  }

  /** Chunk `i` is the slice `list[i*n : i*n + n]`, clipped at the end of the list: the slices taken
      for `i in range(0, len(list), n)`. */
  lemma {:induction false} DivideChunksAt<T>(list: seq<T>, n: nat, i: nat)
    requires n > 0
    requires i < |DivideChunks(list, n)|
    ensures i * n < |list|
    ensures DivideChunks(list, n)[i] == list[i * n .. if i * n + n <= |list| then i * n + n else |list|]
    decreases i
  {
    if i > 0 {
      var rest := list[n..];
      DivideChunksAt(rest, n, i - 1);
      assert i * n == (i - 1) * n + n;
      assert DivideChunks(list, n)[i] == DivideChunks(rest, n)[i - 1];
    }
  }

  /** `flatten(matrix)`: the rows concatenated in order (the loop extends an accumulator row by row). */
  function Flatten<T>(matrix: seq<seq<T>>): seq<T>
  {
    if matrix == [] then [] else Flatten(matrix[..|matrix| - 1]) + matrix[|matrix| - 1]
  }

  /** Total length of the rows of a matrix. */
  function SumOfLengths<T>(matrix: seq<seq<T>>): nat
  {
    if matrix == [] then 0 else SumOfLengths(matrix[..|matrix| - 1]) + |matrix[|matrix| - 1]|
  }

  /** Flattening a leading row: the first row comes first. */
  lemma {:induction false} FlattenCons<T>(row: seq<T>, rest: seq<seq<T>>)
    ensures Flatten([row] + rest) == row + Flatten(rest)
    decreases |rest|
  {
    if rest == [] {
      assert [row] + rest == [row];
      assert [row][..0] == [];
    } else {
      var m := [row] + rest;
      assert m[..|m| - 1] == [row] + rest[..|rest| - 1];
      FlattenCons(row, rest[..|rest| - 1]);
    }
  }

  /** Flattening distributes over concatenation of matrices. */
  lemma {:induction false} FlattenAppend<T>(a: seq<seq<T>>, b: seq<seq<T>>)
    ensures Flatten(a + b) == Flatten(a) + Flatten(b)
    decreases |b|
  {
    if b == [] {
      assert a + b == a;
    } else {
      assert (a + b)[..|a + b| - 1] == a + b[..|b| - 1];
      FlattenAppend(a, b[..|b| - 1]);
    }
  }

  /** The flattened list is as long as all rows together. */
  lemma {:induction false} FlattenLength<T>(matrix: seq<seq<T>>)
    ensures |Flatten(matrix)| == SumOfLengths(matrix)
    decreases |matrix|
  {
    if matrix != [] {
      FlattenLength(matrix[..|matrix| - 1]);
    }
  }

  /** Concatenating the chunks of `divide_chunks` gives back the input list. */
  lemma {:induction false} FlattenDivideChunks<T>(list: seq<T>, n: nat)
    requires n > 0
    ensures Flatten(DivideChunks(list, n)) == list
    decreases |list|
  {
    if |list| == 0 {
    } else if |list| <= n {
      assert Flatten([list]) == list by {
        assert [list][..0] == [];
      }
    } else {
      FlattenDivideChunks(list[n..], n);
      FlattenCons(list[..n], DivideChunks(list[n..], n));
      assert list[..n] + list[n..] == list;
    }
  }

  /** `list.remove`: drop the first occurrence, if there is one. */
  function RemoveFirst<T(==)>(s: seq<T>, x: T): (r: seq<T>)
  {
    if s == [] then []
    else if s[0] == x then s[1..]
    else [s[0]] + RemoveFirst(s[1..], x)
  }

  /** `list.remove` takes away exactly one occurrence, when there is one. */
  lemma {:induction false} RemoveFirstMultiset<T>(s: seq<T>, x: T)
    ensures multiset(RemoveFirst(s, x)) == multiset(s) - multiset{x}
  {
    if s != [] {
      assert s == [s[0]] + s[1..];
      if s[0] != x {
        RemoveFirstMultiset(s[1..], x);
      }
    }
  }

  /** Removing an absent element changes nothing. */
  lemma {:induction false} RemoveFirstAbsent<T>(s: seq<T>, x: T)
    requires x !in s
    ensures RemoveFirst(s, x) == s
  {
    if s != [] {
      RemoveFirstAbsent(s[1..], x);
    }
  }

  /** Appending a new element and removing it again is a round trip. */
  lemma {:induction false} RemoveFirstAppend<T>(s: seq<T>, x: T)
    requires x !in s
    ensures RemoveFirst(s + [x], x) == s
  {
    if s == [] {
    } else {
      assert (s + [x])[1..] == s[1..] + [x];
      RemoveFirstAppend(s[1..], x);
    }
  }
}
