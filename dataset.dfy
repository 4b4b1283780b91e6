/**
 `PuncDataset` (tool/dataset.py): a token stream in which punctuation marks
 stand as tokens of their own is turned into word ids and, for every word,
 the id of the punctuation mark that came just before it; both lists are then
 cut into rows of `Rows.Width` for training.
 */
module Dataset {
  import opened Text
  import opened Vocab
  import opened Rows

  /** The reserved words of the word vocabulary: `<UNK>` gets 0, `<END>` gets 1. */
  const WordExtras: seq<string> := ["<UNK>", "<END>"]
  /** The reserved entry of the punctuation vocabulary: a blank, id 0, for "no mark". */
  const PuncExtras: seq<string> := [" "]

  /** Indexing a tensor either yields a value or raises `IndexError`. */
  datatype Result<T> = Ok(value: T) | IndexError

  /** The keys `preprocess` looks up unconditionally. */
  predicate Ready(word2id: map<string, int>, punc2id: map<string, int>)
  {
    "<UNK>" in word2id && "<END>" in word2id && " " in punc2id
  }

  /** `inv` undoes `m` on every key of `m`. */
  ghost predicate Inverse(m: map<string, int>, inv: map<int, string>)
  {
    forall w :: w in m ==> m[w] in inv && inv[m[w]] == w
  }

  /** `word2id.get(token, word2id["<UNK>"])`. */
  function WordId(word2id: map<string, int>, token: string): int
    requires "<UNK>" in word2id
  {
    if token in word2id then word2id[token] else word2id["<UNK>"]
  }

  /** The punctuation pending after reading `ts`: the last token if it is a
      punctuation mark (a later mark replaces an earlier one), otherwise the
      blank, which is also where the stream starts. */
  function Pending(ts: seq<string>, punc2id: map<string, int>): string
  {
    if ts != [] && ts[|ts| - 1] in punc2id then ts[|ts| - 1] else " "
  }

  /** The tokens of `ts` that are not punctuation marks, in order. */
  function Words(ts: seq<string>, punc2id: map<string, int>): seq<string>
    decreases |ts|
  {
    if ts == [] then []
    else
      var last := ts[|ts| - 1];
      Words(ts[..|ts| - 1], punc2id) + if last in punc2id then [] else [last]
  }

  /** The token position of the `k`-th word: every word has one, and exactly
      `k` words come before it. */
  function WordPos(ts: seq<string>, k: nat, punc2id: map<string, int>): (p: nat)
    requires k < |Words(ts, punc2id)|
    ensures p < |ts| && ts[p] !in punc2id && |Words(ts[..p], punc2id)| == k
    decreases |ts|
  {
    var n := |ts| - 1;
    if k < |Words(ts[..n], punc2id)| then
      var p := WordPos(ts[..n], k, punc2id);
      assert ts[..n][..p] == ts[..p];
      p
    else
      n
  }

  /** The local state of the `preprocess` loop: `in_id`, `label` and `punc`. */
  datatype Scanned = Scanned(ids: seq<int>, labels: seq<int>, punc: string)

  /** The loop state after the tokens `ts` have been read. */
  function Scan(ts: seq<string>, word2id: map<string, int>, punc2id: map<string, int>): (r: Scanned)
    requires Ready(word2id, punc2id)
    ensures |r.ids| == |Words(ts, punc2id)| && |r.labels| == |r.ids|
    ensures r.punc == Pending(ts, punc2id) && r.punc in punc2id
    decreases |ts|
  {
    if ts == [] then Scanned([], [], " ")
    else
      var s := Scan(ts[..|ts| - 1], word2id, punc2id);
      var token := ts[|ts| - 1];
      if token in punc2id then s.(punc := token)
      else Scanned(s.ids + [WordId(word2id, token)], s.labels + [punc2id[s.punc]], " ")
  }

  /** The token loop of `preprocess`: a punctuation mark only becomes the
      pending mark; any other token appends its word id and the pending mark's
      id, and resets the pending mark to the blank. */
  method ScanTokens(tokens: seq<string>, word2id: map<string, int>, punc2id: map<string, int>)
    returns (inIds: seq<int>, labelIds: seq<int>, punc: string)
    requires Ready(word2id, punc2id)
    ensures Scanned(inIds, labelIds, punc) == Scan(tokens, word2id, punc2id)
  {
    inIds, labelIds, punc := [], [], " ";
    for i := 0 to |tokens|
      invariant Scanned(inIds, labelIds, punc) == Scan(tokens[..i], word2id, punc2id)
    {
      assert tokens[..i + 1][..i] == tokens[..i];
      var token := tokens[i];
      if token in punc2id {
        punc := token;
      } else {
        inIds := inIds + [WordId(word2id, token)];
        labelIds := labelIds + [punc2id[punc]];
        punc := " ";
      }
    }
    assert tokens[..|tokens|] == tokens;
  }

  /** What the loop builds, by the position of each word in the token stream:
      the `k`-th word's id is its vocabulary id (or `<UNK>`'s), and the word at
      token position `p` is the `k`-th word for `k` the number of words before
      `p`, labelled with the punctuation pending just before it. */
  lemma {:induction false} ScanAligned(ts: seq<string>, word2id: map<string, int>, punc2id: map<string, int>)
    requires Ready(word2id, punc2id)
    ensures forall k :: 0 <= k < |Words(ts, punc2id)| ==>
              Scan(ts, word2id, punc2id).ids[k] == WordId(word2id, Words(ts, punc2id)[k])
    ensures forall p :: 0 <= p < |ts| && ts[p] !in punc2id ==>
              var k := |Words(ts[..p], punc2id)|;
              k < |Words(ts, punc2id)| && Words(ts, punc2id)[k] == ts[p]
              && Scan(ts, word2id, punc2id).labels[k] == punc2id[Pending(ts[..p], punc2id)]
    decreases |ts|
  {
    if ts != [] {
      var n := |ts| - 1;
      var init := ts[..n];
      ScanAligned(init, word2id, punc2id);
      forall p | 0 <= p < |ts| && ts[p] !in punc2id
        ensures var k := |Words(ts[..p], punc2id)|;
                k < |Words(ts, punc2id)| && Words(ts, punc2id)[k] == ts[p]
                && Scan(ts, word2id, punc2id).labels[k] == punc2id[Pending(ts[..p], punc2id)]
      {
        if p < n {
          assert init[..p] == ts[..p];
        }
      }
    }
  }

  /** Every label is determined: the `k`-th word's label is the mark pending
      just before that word's token position. */
  lemma WordsCovered(ts: seq<string>, word2id: map<string, int>, punc2id: map<string, int>)
    requires Ready(word2id, punc2id)
    ensures forall k :: 0 <= k < |Words(ts, punc2id)| ==>
              Scan(ts, word2id, punc2id).labels[k] == punc2id[Pending(ts[..WordPos(ts, k, punc2id)], punc2id)]
  {
    ScanAligned(ts, word2id, punc2id);
    forall k | 0 <= k < |Words(ts, punc2id)|
      ensures Scan(ts, word2id, punc2id).labels[k] == punc2id[Pending(ts[..WordPos(ts, k, punc2id)], punc2id)]
    {
      var p := WordPos(ts, k, punc2id);
    }
  }

  /** `preprocess`'s flat `in_id` and `label` lists before truncation: the loop
      result with `<END>` appended, labelled with the punctuation that trailed
      the last word. */
  function Encode(ts: seq<string>, word2id: map<string, int>, punc2id: map<string, int>): (r: (seq<int>, seq<int>))
    requires Ready(word2id, punc2id)
    ensures |r.0| == |Words(ts, punc2id)| + 1 && |r.1| == |r.0|
    ensures forall k :: 0 <= k < |Words(ts, punc2id)| ==> r.0[k] == WordId(word2id, Words(ts, punc2id)[k])
    ensures forall p :: 0 <= p < |ts| && ts[p] !in punc2id ==>
              var k := |Words(ts[..p], punc2id)|;
              k < |Words(ts, punc2id)| && Words(ts, punc2id)[k] == ts[p]
              && r.1[k] == punc2id[Pending(ts[..p], punc2id)]
    ensures forall k :: 0 <= k < |Words(ts, punc2id)| ==>
              r.1[k] == punc2id[Pending(ts[..WordPos(ts, k, punc2id)], punc2id)]
    ensures r.0[|r.0| - 1] == word2id["<END>"] && r.1[|r.1| - 1] == punc2id[Pending(ts, punc2id)]
  {
    ScanAligned(ts, word2id, punc2id);
    WordsCovered(ts, word2id, punc2id);
    var s := Scan(ts, word2id, punc2id);
    (s.ids + [word2id["<END>"]], s.labels + [punc2id[s.punc]])
  }

  /** A run of punctuation marks before a word: the last mark of the run is the word's label. */
  lemma LastMarkWins(pre: seq<string>, marks: seq<string>, w: string,
                     word2id: map<string, int>, punc2id: map<string, int>)
    requires Ready(word2id, punc2id)
    requires marks != [] && forall i :: 0 <= i < |marks| ==> marks[i] in punc2id
    requires w !in punc2id
    ensures var s := Scan(pre + marks + [w], word2id, punc2id);
            s.labels != [] && s.labels[|s.labels| - 1] == punc2id[marks[|marks| - 1]]
  {
    var ts := pre + marks + [w];
    assert ts[..|ts| - 1] == pre + marks;
  }

  /** A word with no mark since the previous word (or at the start) is labelled with the blank. */
  lemma UnmarkedWordIsBlank(pre: seq<string>, w: string,
                            word2id: map<string, int>, punc2id: map<string, int>)
    requires Ready(word2id, punc2id)
    requires pre == [] || pre[|pre| - 1] !in punc2id
    requires w !in punc2id
    ensures var s := Scan(pre + [w], word2id, punc2id);
            s.labels != [] && s.labels[|s.labels| - 1] == punc2id[" "]
  {
    assert (pre + [w])[..|pre|] == pre;
  }

  /** Reading the encoded stream back through the inverse dictionaries gives
      each word (or `<UNK>` for an unknown one) and the mark pending before it. */
  lemma DecodeAt(ts: seq<string>, p: nat,
                 word2id: map<string, int>, id2word: map<int, string>,
                 punc2id: map<string, int>, id2punc: map<int, string>)
    requires Ready(word2id, punc2id)
    requires Inverse(word2id, id2word) && Inverse(punc2id, id2punc)
    requires p < |ts| && ts[p] !in punc2id
    ensures var r := Encode(ts, word2id, punc2id);
            var k := |Words(ts[..p], punc2id)|;
            k < |r.0|
            && r.0[k] in id2word && id2word[r.0[k]] == (if ts[p] in word2id then ts[p] else "<UNK>")
            && r.1[k] in id2punc && id2punc[r.1[k]] == Pending(ts[..p], punc2id)
  {
    var r := Encode(ts, word2id, punc2id);
    var k := |Words(ts[..p], punc2id)|;
    assert r.0[k] == WordId(word2id, ts[p]);
  }

  /** Every element of `xs` is an id that `m` hands out. */
  ghost predicate AllIn(xs: seq<int>, m: map<string, int>)
  {
    forall k :: 0 <= k < |xs| ==> xs[k] in m.Values
  }

  /** Every id and every label the loop emits is a value of its dictionary,
      so the inverse dictionaries can read all of them back. */
  lemma {:induction false} ScanInVocab(ts: seq<string>, word2id: map<string, int>, punc2id: map<string, int>)
    requires Ready(word2id, punc2id)
    ensures AllIn(Scan(ts, word2id, punc2id).ids, word2id)
    ensures AllIn(Scan(ts, word2id, punc2id).labels, punc2id)
    decreases |ts|
  {
    if ts != [] {
      var init, token := ts[..|ts| - 1], ts[|ts| - 1];
      ScanInVocab(init, word2id, punc2id);
      var s := Scan(init, word2id, punc2id);
      if token !in punc2id {
        var id := WordId(word2id, token);
        assert id in word2id.Values by {
          if token in word2id { assert word2id[token] == id; } else { assert word2id["<UNK>"] == id; }
        }
        assert punc2id[s.punc] in punc2id.Values;
      }
    }
  }

  /** The flat lists `preprocess` stores hold only ids of the two dictionaries,
      `<END>` and the trailing mark included. */
  lemma EncodeInVocab(ts: seq<string>, word2id: map<string, int>, punc2id: map<string, int>)
    requires Ready(word2id, punc2id)
    ensures AllIn(Encode(ts, word2id, punc2id).0, word2id)
    ensures AllIn(Encode(ts, word2id, punc2id).1, punc2id)
  {
    ScanInVocab(ts, word2id, punc2id);
    var s := Scan(ts, word2id, punc2id);
    assert word2id["<END>"] in word2id.Values;
    assert punc2id[s.punc] in punc2id.Values;
  }

  class PuncDataset {
    var word2id: map<string, int>
    var id2word: map<int, string>
    var punc2id: map<string, int>
    var id2punc: map<int, string>
    var txtSeqs: seq<string>
    var inLen: int
    var inId: seq<seq<int>>
    var labels: seq<seq<int>>
    /** The flat `in_id` and `label` lists as `preprocess` built them, before truncation. */
    ghost var flatIds: seq<int>
    ghost var flatLabels: seq<int>

    ghost predicate Valid()
      reads this
    {
      && Ready(word2id, punc2id)
      && |flatIds| == |flatLabels|
      && inLen == |flatIds| / Width
      && inId == WholeRows(flatIds)
      && labels == WholeRows(flatLabels)
    }

    /** `PuncDataset(train_path, vocab_path, punc_path)`, with each file given as its lines. */
    constructor (trainLines: seq<string>, vocabLines: seq<string>, puncLines: seq<string>)
      ensures Valid()
      ensures forall w :: w in word2id <==> w in WordExtras || w in Stripped(vocabLines)
      ensures forall w :: w in word2id ==> word2id[w] == IdOf(vocabLines, WordExtras, w)
      ensures forall w :: w in punc2id <==> w in PuncExtras || w in Stripped(puncLines)
      ensures forall w :: w in punc2id ==> punc2id[w] == IdOf(puncLines, PuncExtras, w)
      ensures word2id["<UNK>"] == 0 && word2id["<END>"] == 1 && punc2id[" "] == 0
      ensures id2word.Keys == word2id.Values && Inverse(word2id, id2word)
      ensures id2punc.Keys == punc2id.Values && Inverse(punc2id, id2punc)
      ensures txtSeqs == Tokens(trainLines)
      ensures (flatIds, flatLabels) == Encode(txtSeqs, word2id, punc2id)
    {
      var w2i := LoadVocab(vocabLines, WordExtras);
      var i2w := Invert(w2i);
      var p2i := LoadVocab(puncLines, PuncExtras);
      var i2p := Invert(p2i);
      word2id, id2word, punc2id, id2punc := w2i, i2w, p2i, i2p;
      txtSeqs := Tokens(trainLines);
      new;
      Preprocess(txtSeqs);
    }

    /** `preprocess(txt_seqs)`: one pass over the tokens, then truncation to
        whole rows and the reshape. Only the three row fields change. */
    method Preprocess(tokens: seq<string>)
      requires Ready(word2id, punc2id)
      modifies this
      ensures Valid()
      ensures word2id == old(word2id) && id2word == old(id2word)
      ensures punc2id == old(punc2id) && id2punc == old(id2punc)
      ensures txtSeqs == old(txtSeqs)
      ensures (flatIds, flatLabels) == Encode(tokens, word2id, punc2id)
    {
      var inIdList, labelList, punc := ScanTokens(tokens, word2id, punc2id);
      inIdList := inIdList + [word2id["<END>"]];
      labelList := labelList + [punc2id[punc]];
      flatIds, flatLabels := inIdList, labelList;

      inLen := |inIdList| / Width;
      var lenTmp := inLen * Width;
      inId := Reshape(inIdList[..lenTmp]);
      labels := Reshape(labelList[..lenTmp]);
      assert inId == WholeRows(flatIds) && labels == WholeRows(flatLabels);
    }

    /** `__len__`: the number of whole rows; the fewer than `Width` trailing
        elements of the flat lists are the ones dropped. */
    function Len(): (n: int)
      reads this
      requires Valid()
      ensures n == |inId| && n == |labels|
      ensures 0 <= n * Width <= |flatIds| < (n + 1) * Width
    {
      inLen
    }

    /** `__getitem__(index)`: the input row and the label row at `index`
        (negative indices count from the end, as tensor indexing does). */
    function GetItem(index: int): (r: Result<(seq<int>, seq<int>)>)
      reads this
      requires Valid()
      ensures r.Ok? <==> -Len() <= index < Len()
      ensures r.Ok? ==>
                var k := if index < 0 then index + Len() else index;
                && r.value.0 == flatIds[k * Width..(k + 1) * Width]
                && r.value.1 == flatLabels[k * Width..(k + 1) * Width]
    {
      if -inLen <= index < inLen then
        var k := if index < 0 then index + inLen else index;
        Ok((inId[k], labels[k]))
      else
        IndexError
    }
  }
}
