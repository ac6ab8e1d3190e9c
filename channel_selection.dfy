/** The EEG channel pick of main.py: keep the electrode names of a fixed montage
    that the recording actually contains, in the montage's order. */
module ChannelSelection {

  /** The fourteen electrode names the viewer looks for, in display order. */
  const EegNames: seq<string> :=
    ["AF3", "F7", "F3", "FC5", "T7", "P7", "O1", "O2", "P8", "T8", "FC6", "F4", "F8", "AF4"]

  ghost predicate NoDuplicates<X>(s: seq<X>) {
    forall i, j :: 0 <= i < j < |s| ==> s[i] != s[j]
  }

  /** `a` is obtained from `b` by deleting elements, keeping the rest in order. */
  predicate SubsequenceOf<X(==)>(a: seq<X>, b: seq<X>)
    decreases |b|
  {
    if a == [] then true
    else if b == [] then false
    else if a[0] == b[0] then SubsequenceOf(a[1..], b[1..])
    else SubsequenceOf(a, b[1..])
  }

  /** `[ch for ch in wanted if ch in present]`. */
  function Available(wanted: seq<string>, present: seq<string>): (r: seq<string>)
    ensures |r| <= |wanted|
    ensures forall x :: x in r <==> x in wanted && x in present
    decreases |wanted|
  {
    if wanted == [] then []
    else (if wanted[0] in present then [wanted[0]] else []) + Available(wanted[1..], present)
  }

  /** The channel list that main.py hands to the channel pick. */
  function AvailableEeg(fileChannels: seq<string>): (r: seq<string>)
    ensures forall x :: x in r <==> x in EegNames && x in fileChannels
  {
    Available(EegNames, fileChannels)
  }

  lemma {:induction false} SubsequenceMembers<X>(a: seq<X>, b: seq<X>, x: X)
    requires SubsequenceOf(a, b)
    requires x in a
    ensures x in b
    decreases |b|
  {
    if b != [] {
      if a[0] == b[0] {
        if x != a[0] {
          assert x in a[1..];
          SubsequenceMembers(a[1..], b[1..], x);
        }
      } else {
        SubsequenceMembers(a, b[1..], x);
      }
    }
  }

  /** The filter keeps the montage's order. */
  lemma {:induction false} AvailableIsSubsequence(wanted: seq<string>, present: seq<string>)
    ensures SubsequenceOf(Available(wanted, present), wanted)
    decreases |wanted|
  {
    if wanted != [] {
      AvailableIsSubsequence(wanted[1..], present);
      var rest := Available(wanted[1..], present);
      if wanted[0] in present {
        assert Available(wanted, present) == [wanted[0]] + rest;
        assert ([wanted[0]] + rest)[1..] == rest;
      } else {
        assert Available(wanted, present) == rest;
        SkipHead(rest, wanted);
      }
    }
  }

  lemma {:induction false} SkipHead<X>(a: seq<X>, b: seq<X>)
    requires b != []
    requires SubsequenceOf(a, b[1..])
    ensures SubsequenceOf(a, b)
    decreases |b|, |a|
  {
    if a != [] && a[0] == b[0] {
      SubsequenceTail(a, b[1..]);
    }
  }

  lemma {:induction false} SubsequenceTail<X>(a: seq<X>, b: seq<X>)
    requires a != []
    requires SubsequenceOf(a, b)
    ensures SubsequenceOf(a[1..], b)
    decreases |b|, |a|
  {
    if a[0] == b[0] {
      if a[1..] != [] {
        SkipHead(a[1..], b);
      }
    } else {
      SubsequenceTail(a, b[1..]);
      SkipHead(a[1..], b);
    }
  }

  /** A list without repeated names stays without repeated names after filtering. */
  lemma {:induction false} AvailableNoDuplicates(wanted: seq<string>, present: seq<string>)
    requires NoDuplicates(wanted)
    ensures NoDuplicates(Available(wanted, present))
    decreases |wanted|
  {
    if wanted != [] {
      var rest := Available(wanted[1..], present);
      assert NoDuplicates(wanted[1..]) by {
        forall i, j | 0 <= i < j < |wanted[1..]| ensures wanted[1..][i] != wanted[1..][j] {
          assert wanted[1..][i] == wanted[i + 1] && wanted[1..][j] == wanted[j + 1];
        }
      }
      AvailableNoDuplicates(wanted[1..], present);
      if wanted[0] in present {
        var r := [wanted[0]] + rest;
        assert wanted[0] !in wanted[1..];
        forall i, j | 0 <= i < j < |r| ensures r[i] != r[j] {
          if i == 0 {
            assert r[j] == rest[j - 1];
            assert r[j] in wanted[1..];
          } else {
            assert r[i] == rest[i - 1] && r[j] == rest[j - 1];
          }
        }
        assert Available(wanted, present) == r;
      } else {
        assert Available(wanted, present) == rest;
      }
    }
  }

  /** The filter is the only order-preserving selection of the wanted names with exactly
      the required members: any other candidate with these properties equals it. */
  lemma {:induction false} AvailableUnique(wanted: seq<string>, present: seq<string>, r: seq<string>)
    requires NoDuplicates(wanted)
    requires SubsequenceOf(r, wanted)
    requires forall x :: x in r <==> x in wanted && x in present
    ensures r == Available(wanted, present)
    decreases |wanted|
  {
    if wanted == [] {
      assert r == [];
    } else {
      var w := wanted[0];
      var tail := wanted[1..];
      assert w !in tail;
      assert NoDuplicates(tail) by {
        forall i, j | 0 <= i < j < |tail| ensures tail[i] != tail[j] {
          assert tail[i] == wanted[i + 1] && tail[j] == wanted[j + 1];
        }
      }
      if w in present {
        assert w in r;
        if r[0] != w {
          assert SubsequenceOf(r, tail);
          SubsequenceMembers(r, tail, w);
          assert false;
        }
        assert SubsequenceOf(r[1..], tail);
        forall x ensures x in r[1..] <==> x in tail && x in present {
          if x in r[1..] {
            SubsequenceMembers(r[1..], tail, x);
          }
          if x in tail && x in present {
            assert x in r && x != r[0];
            assert r == [r[0]] + r[1..];
          }
        }
        AvailableUnique(tail, present, r[1..]);
        assert r == [w] + r[1..];
      } else {
        assert w !in r;
        assert r == [] || r[0] != w;
        assert SubsequenceOf(r, tail);
        forall x ensures x in r <==> x in tail && x in present {
          if x in r {
            SubsequenceMembers(r, tail, x);
          }
        }
        AvailableUnique(tail, present, r);
      }
    }
  }

  lemma EegNamesDistinct()
    ensures NoDuplicates(EegNames)
  {
  }

  /** `available_eeg` holds exactly the montage names present in the file, each once,
      in montage order. */
  lemma AvailableEegSpec(fileChannels: seq<string>)
    ensures SubsequenceOf(AvailableEeg(fileChannels), EegNames)
    ensures NoDuplicates(AvailableEeg(fileChannels))
    ensures forall x :: x in AvailableEeg(fileChannels) <==> x in EegNames && x in fileChannels
  {
    AvailableIsSubsequence(EegNames, fileChannels);
    EegNamesDistinct();
    AvailableNoDuplicates(EegNames, fileChannels);
  }
}
