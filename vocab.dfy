/**
 `load_vocab` (tool/dataset.py) and the inverse dictionaries built from its
 result. A vocabulary file is given as the sequence of its lines; the reserved
 "extra" words take the ids `0..n-1` and file line `i` takes `i + n`.
 */
module Vocab {
  import opened Text

  /** The last position of `x` in `s`: where a later assignment has the final say. */
  function LastIndex(s: seq<string>, x: string): (i: nat)
    requires x in s
    ensures i < |s| && s[i] == x
    ensures forall j :: i < j < |s| ==> s[j] != x
    decreases |s|
  {
    if s[|s| - 1] == x then |s| - 1
    else
      assert x in s[..|s| - 1] by {
        var j :| 0 <= j < |s| && s[j] == x;
        assert s[..|s| - 1][j] == x;
      }
      LastIndex(s[..|s| - 1], x)
  }

  /** The vocabulary file's lines after `word.strip()`. */
  function Stripped(lines: seq<string>): seq<string>
  {
    seq(|lines|, i requires 0 <= i < |lines| => Strip(lines[i]))
  }

  /** `{key: i + n for i, key in enumerate(keys)}`: entries are inserted in
      order, so a repeated key keeps the id of its last position. */
  function Enumerate(keys: seq<string>, n: nat): map<string, int>
    decreases |keys|
  {
    if keys == [] then map[]
    else Enumerate(keys[..|keys| - 1], n)[keys[|keys| - 1] := n + |keys| - 1]
  }

  /** `{word.strip(): i + n for i, word in enumerate(lines)}`. */
  function FileVocab(lines: seq<string>, n: nat): map<string, int>
  {
    Enumerate(Stripped(lines), n)
  }

  /** The state after `for i, word in enumerate(extras): vocab[word] = i`. */
  function Overlay(m: map<string, int>, extras: seq<string>): map<string, int>
    decreases |extras|
  {
    if extras == [] then m
    else Overlay(m, extras[..|extras| - 1])[extras[|extras| - 1] := |extras| - 1]
  }

  /** The id `load_vocab` gives `w`, stated without reference to the order of
      assignments: an extra word gets its (last) position among the extras,
      any other key the number of extras plus its (last) line. */
  function IdOf(lines: seq<string>, extras: seq<string>, w: string): int
    requires w in extras || w in Stripped(lines)
  {
    if w in extras then LastIndex(extras, w) else |extras| + LastIndex(Stripped(lines), w)
  }

  ghost predicate Injective(m: map<string, int>)
  {
    forall a, b :: a in m && b in m && a != b ==> m[a] != m[b]
  }

  lemma {:induction false} EnumerateIds(keys: seq<string>, n: nat)
    ensures forall w :: w in Enumerate(keys, n) <==> w in keys
    ensures forall w :: w in Enumerate(keys, n) ==> Enumerate(keys, n)[w] == n + LastIndex(keys, w)
    decreases |keys|
  {
    if keys != [] {
      var init := keys[..|keys| - 1];
      EnumerateIds(init, n);
      assert keys == init + [keys[|keys| - 1]];
      forall w | w in Enumerate(keys, n)
        ensures Enumerate(keys, n)[w] == n + LastIndex(keys, w)
      {
        if w != keys[|keys| - 1] {
          assert LastIndex(keys, w) == LastIndex(init, w);
        }
      }
    }
  }

  lemma {:induction false} OverlayIds(m: map<string, int>, extras: seq<string>)
    ensures forall w :: w in Overlay(m, extras) <==> w in m || w in extras
    ensures forall w :: w in Overlay(m, extras) ==>
              Overlay(m, extras)[w] == if w in extras then LastIndex(extras, w) else m[w]
    decreases |extras|
  {
    if extras != [] {
      var init := extras[..|extras| - 1];
      OverlayIds(m, init);
      assert extras == init + [extras[|extras| - 1]];
      forall w | w in Overlay(m, extras)
        ensures Overlay(m, extras)[w] == if w in extras then LastIndex(extras, w) else m[w]
      {
        if w != extras[|extras| - 1] && w in extras {
          assert LastIndex(extras, w) == LastIndex(init, w);
        }
      }
    }
  }

  /** The two steps of `load_vocab` together give every key the id `IdOf` names. */
  lemma VocabIds(lines: seq<string>, extras: seq<string>)
    ensures forall w :: w in Overlay(FileVocab(lines, |extras|), extras) <==> w in extras || w in Stripped(lines)
    ensures forall w :: w in Overlay(FileVocab(lines, |extras|), extras) ==>
              Overlay(FileVocab(lines, |extras|), extras)[w] == IdOf(lines, extras, w)
  {
    EnumerateIds(Stripped(lines), |extras|);
    OverlayIds(FileVocab(lines, |extras|), extras);
  }

  /** Extra words get the ids below the number of extras, file keys the ids above. */
  lemma IdOfRange(lines: seq<string>, extras: seq<string>, w: string)
    requires w in extras || w in Stripped(lines)
    ensures 0 <= IdOf(lines, extras, w) < |extras| + |lines|
    ensures IdOf(lines, extras, w) < |extras| <==> w in extras
  {
    if w !in extras {
      var s := Stripped(lines);
      assert |s| == |lines|;
      assert LastIndex(s, w) < |lines|;
    }
  }

  /** No two keys share an id. */
  lemma IdOfInjective(lines: seq<string>, extras: seq<string>, a: string, b: string)
    requires a in extras || a in Stripped(lines)
    requires b in extras || b in Stripped(lines)
    requires a != b
    ensures IdOf(lines, extras, a) != IdOf(lines, extras, b)
  {
    if a in extras && b in extras {
      assert extras[LastIndex(extras, a)] != extras[LastIndex(extras, b)];
    } else if a !in extras && b !in extras {
      var s := Stripped(lines);
      assert s[LastIndex(s, a)] != s[LastIndex(s, b)];
    } else {
      IdOfRange(lines, extras, a);
      IdOfRange(lines, extras, b);
    }
  }

  /** `load_vocab(vocab_path, extra_word_list)`, with the file given as its lines. */
  method LoadVocab(lines: seq<string>, extras: seq<string>) returns (vocab: map<string, int>)
    ensures forall w :: w in vocab <==> w in extras || w in Stripped(lines)
    ensures forall w :: w in vocab ==> vocab[w] == IdOf(lines, extras, w)
    ensures forall w :: w in vocab ==> 0 <= vocab[w] < |extras| + |lines|
    ensures forall w :: w in vocab ==> (vocab[w] < |extras| <==> w in extras)
    ensures Injective(vocab)
  {
    var n := |extras|;
    vocab := FileVocab(lines, n);
    for i := 0 to |extras|
      invariant vocab == Overlay(FileVocab(lines, n), extras[..i])
    {
      assert extras[..i + 1][..i] == extras[..i];
      vocab := vocab[extras[i] := i];
    }
    assert extras[..|extras|] == extras;
    VocabIds(lines, extras);
    forall w | w in vocab
      ensures 0 <= vocab[w] < |extras| + |lines| && (vocab[w] < |extras| <==> w in extras)
    {
      IdOfRange(lines, extras, w);
    }
    forall a, b | a in vocab && b in vocab && a != b
      ensures vocab[a] != vocab[b]
    {
      IdOfInjective(lines, extras, a, b);
    }
  }

  /** `{v: k for k, v in m.items()}`. Python keeps, for a value held by several
      keys, the key inserted last; a map has no insertion order, so the keys
      are visited in an unspecified order and only the key-value agreement is
      promised. For an injective map, which `LoadVocab` always returns, the
      result is the exact inverse. */
  method Invert(m: map<string, int>) returns (inv: map<int, string>)
    ensures inv.Keys == m.Values
    ensures forall i :: i in inv ==> inv[i] in m && m[inv[i]] == i
    ensures Injective(m) ==> forall w :: w in m ==> inv[m[w]] == w
  {
    var todo := m.Keys;
    inv := map[];
    while todo != {}
      invariant todo <= m.Keys
      invariant forall w :: w in m && w !in todo ==> m[w] in inv
      invariant forall i :: i in inv ==> inv[i] in m && inv[i] !in todo && m[inv[i]] == i
      decreases todo
    {
      var w :| w in todo;
      inv := inv[m[w] := w];
      todo := todo - {w};
    }
    assert inv.Keys <= m.Values by {
      forall i | i in inv ensures i in m.Values {
        assert inv[i] in m && m[inv[i]] == i;
      }
    }
    assert m.Values <= inv.Keys by {
      forall i | i in m.Values ensures i in inv {
        var w :| w in m && m[w] == i;
      }
    }
  }
}
