# Punctuation-restoration dataset preprocessing, modelled in Dafny

This project models the data-preparation core of a Chinese
punctuation-restoration trainer: `PuncDataset` and `load_vocab` in
`tool/dataset.py`. The trainer reads a text whose words and punctuation marks
are separated by whitespace. It turns that text into rows of 100 word ids, and
gives each word a label: the id of the punctuation mark that came right before
it. An LSTM then learns to predict those labels.

The model follows the source's structure:

- `text.dfy` (module `Text`) holds the Python string methods the code calls.
  `str.strip()` becomes `Strip` and `str.split()` becomes `Split`. Both work
  over Python's whitespace class (the characters for which `str.isspace`
  holds), which becomes `IsSpace`. Flattening all lines into one token list
  becomes `Tokens`.
- `vocab.dfy` (module `Vocab`) holds `load_vocab`. The dict comprehension over
  the file lines becomes the function `FileVocab`, built on `Enumerate`. The
  loop that gives the reserved words the ids `0..n-1` becomes a `for` loop in
  `LoadVocab`, specified by `Overlay`. `IdOf` defines independently which id
  each key ends up with, using the last occurrence (`LastIndex`). The inverse
  dictionaries `id2word` and `id2punc` come from `Invert`.
- `rows.dfy` (module `Rows`) holds the `reshape(-1, 100)` of the truncated flat
  lists, on nested sequences (`Reshape`, `WholeRows`, `Flatten`).
- `dataset.dfy` (module `Dataset`) holds the `preprocess` pass and the class.
  `Scan` is the state of the token loop after a prefix of the tokens.
  `ScanTokens` is that loop, proved against `Scan`. `Encode` adds the final
  `<END>` pair. `Pending` is the pending-punctuation rule. The class
  `PuncDataset` has the source's fields. Its constructor is `__init__`, and
  `Preprocess`, `Len` and `GetItem` are `preprocess`, `__len__` and
  `__getitem__`.

Files are given as the sequence of their lines, newlines included, in place of
paths. The constructor therefore takes the training, vocabulary and
punctuation files' lines.

Some consequences of the code that the model makes explicit:

- A token found in the punctuation dictionary is never emitted, even if it is
  also in the word vocabulary.
- Only the last of consecutive marks survives.
- The `<END>` pair is kept only when the flat length is a multiple of 100.
  Otherwise it falls into the dropped remainder, like every other element
  past the last whole row.

The docstring of `__len__` calls its result the number of sentences in the
file. The code returns the number of 100-wide rows (`in_len`), and the model
follows the code.

## Model

| member | source | states |
|---|---|---|
| Text.Strip | tool/dataset.py:111 | `word.strip()` (whitespace being Python's class, `IsSpace`) leaves no whitespace at either end, is never longer than the line, and gives the empty key for a blank line |
| Text.StripPadded | tool/dataset.py:111 | a word surrounded by whitespace, its trailing newline included, strips back to exactly that word |
| Text.Split | tool/dataset.py:40 | every token `split()` yields is non-empty and contains no whitespace (`IsSpace`), and the result is empty exactly for a blank line |
| Text.SplitPadded | tool/dataset.py:40 | which tokens `split()` yields: leading whitespace is skipped and a token ends at the next whitespace or the end, so padding, a token and a rest give that token followed by the rest's tokens |
| Text.SplitAppend | tool/dataset.py:40 | text cut right after a whitespace character (a newline, say) splits as its two parts do, one after the other |
| Text.SplitJoin | tool/dataset.py:62-64 | text laid out as the docstring says (each token followed by one space) splits back into exactly those tokens |
| Text.Tokens | tool/dataset.py:39-40 | every token of every line is non-empty and free of whitespace |
| Text.TokensOfText | tool/dataset.py:39-40 | for lines as `readlines()` gives them (each but the last ends with its newline), the per-line tokens laid end to end are exactly `split()` of the whole file text |
| Text.TokensAppend | tool/dataset.py:40 | the tokens of two runs of lines are the first run's tokens followed by the second's |
| Vocab.LastIndex | tool/dataset.py:111 | the position holding `x` with no later occurrence: the assignment that has the final say |
| Vocab.EnumerateIds | tool/dataset.py:111 | the comprehension (`Enumerate`, on the stripped lines `FileVocab`)'s keys are exactly the stripped lines, and each key gets `n` plus its last line index |
| Vocab.OverlayIds | tool/dataset.py:112-113 | after the extras loop (`Overlay`), the keys are the old keys plus the extras; each extra gets its (last) list index; every other key keeps its id |
| Vocab.VocabIds | tool/dataset.py:108-114 | the comprehension followed by the loop gives exactly the keys and ids that the order-free definition `IdOf` names |
| Vocab.IdOfRange | tool/dataset.py:109-113 | reserved words get ids below `n`, file keys get ids from `n` to `n + len(lines) - 1` |
| Vocab.IdOfInjective | tool/dataset.py:109-113 | distinct keys get distinct ids |
| Vocab.LoadVocab | tool/dataset.py:108-114 | the returned dictionary has the reserved words and the stripped lines as keys, each with the id `IdOf` gives; ids are in range, below `n` exactly for reserved words, and never shared |
| Vocab.Invert | tool/dataset.py:32 | the inverse has exactly the ids as keys, maps each back to a key holding it, and undoes an injective dictionary on every key |
| Rows.Reshape | tool/dataset.py:84 | row-major reshape: `len / 100` rows, row `i` is the flat slice `[100 i, 100 i + 100)`, cell `(i, j)` is flat element `100 i + j` |
| Rows.WholeRows | tool/dataset.py:80-86 | truncation then reshape: `len // 100` rows of the flat list's elements in order, fewer than 100 trailing elements dropped |
| Rows.FlattenReshape | tool/dataset.py:84-86 | reshaping loses nothing: flattening the rows gives the truncated list back |
| Rows.ReshapeFlatten | tool/dataset.py:84-86 | rows of width 100 are exactly what reshaping their flattening gives |
| Dataset.Scan | tool/dataset.py:66-76 | after a prefix of the tokens, the loop holds one id and one label per non-punctuation token, and its pending mark is the last token if that is a mark, else the blank |
| Dataset.ScanTokens | tool/dataset.py:66-76 | the token loop computes exactly the state `Scan` specifies |
| Dataset.ScanAligned | tool/dataset.py:69-76 | the `k`-th id is the vocabulary id of the `k`-th word, or `<UNK>`'s when it has none (`WordId`, the `get` with a default at line 73); the word at token position `p` is word number (words before `p`), labelled with the mark pending just before it |
| Dataset.WordPos | tool/dataset.py:69-76 | every word has a token position: a non-punctuation token with exactly `k` words before it |
| Dataset.WordsCovered | tool/dataset.py:69-76 | every label is determined: the `k`-th label is the id of the mark pending just before the `k`-th word's token |
| Dataset.Encode | tool/dataset.py:66-78 | the flat lists have length (non-punctuation tokens) + 1; ids and labels are aligned word by word as in `ScanAligned`, and every label is fixed as in `WordsCovered`; the last pair is `<END>` with the mark that trailed the last word |
| Dataset.LastMarkWins | tool/dataset.py:70-71 | of several consecutive marks before a word, the last one is its label |
| Dataset.UnmarkedWordIsBlank | tool/dataset.py:74-76 | a word with no mark since the previous word, or at the start, is labelled with the blank |
| Dataset.DecodeAt | tool/dataset.py:32-37 | reading an encoded word back through `id2word` and `id2punc` gives the word (or `<UNK>` for an unknown one) and the mark pending before it |
| Dataset.ScanInVocab | tool/dataset.py:73-74 | every id and label the loop emits is a value of its dictionary |
| Dataset.EncodeInVocab | tool/dataset.py:73-78 | every id and label in the flat lists, `<END>` included, is a value of its dictionary |
| Dataset.PuncDataset.constructor | tool/dataset.py:21-42 | both vocabularies are as `LoadVocab` promises, with `<UNK>` = 0, `<END>` = 1 and blank = 0; `id2word` and `id2punc` invert them; the tokens are the file's tokens; the stored rows are those of `Encode` |
| Dataset.PuncDataset.Preprocess | tool/dataset.py:59-86 | the flat lists are `Encode(tokens)`; `in_len` is their length divided by 100, and the two row fields are their whole rows; the dictionaries and tokens are unchanged |
| Dataset.PuncDataset.Len | tool/dataset.py:44-47 | the number of rows of both tensors; the rows cover all but fewer than 100 trailing flat elements |
| Dataset.PuncDataset.GetItem | tool/dataset.py:49-57 | succeeds exactly for `-in_len <= index < in_len` (negative indices count from the end) and returns the same 100-wide slice of the flat ids and of the flat labels; any other index is `IndexError` |

## Left out

- File access is not modelled. This covers `open`, `readlines`, the
  `os.path.exists` assertions and the `print` calls in `__init__` (tool/dataset.py:23-26, 39). Files are passed in as their lines; UTF-8 decoding and
  the splitting of a file into lines are assumed done.
- `torch.tensor` and `np.array(..., dtype='i8')` (tool/dataset.py:84-86) are
  modelled as nested sequences of unbounded integers. All ids are below the
  vocabulary sizes, so 64-bit overflow cannot occur.
- `get_loader` (tool/dataset.py:117-142) only wires the dataset into torch's
  `DataLoader` and a sequence sampler. That sampler is not part of this model.
- `NoPuncTextDataset` and `collate_fn` (tool/dataset.py:91-106) have empty or
  unfinished bodies, so there is no behaviour to model. The same holds for
  `inference/inference.py`, whose `main` is a stub. The `conf/` modules hold
  only constants.
- Vocab.Invert: for a value held by several keys, Python keeps the key inserted
  last. Maps have no insertion order, so the contract only says the kept key
  holds that value. Every dictionary the dataset inverts is injective
  (`LoadVocab`), so the result there is the exact inverse.
- Dataset.PuncDataset.GetItem: only integer indices are modelled, not slices
  or index tensors.
- Dataset.PuncDataset.Preprocess: requires that `<UNK>`, `<END>` and the blank
  are keys. The source would raise `KeyError` without them, but `load_vocab`
  always inserts them. The token loop is the separate method `ScanTokens`, so
  that each proof stays small.
- Text.Strip: its contract does not say that the result is a contiguous slice
  of the line. `StripPadded` gives the exact result for any line made of a word
  and surrounding whitespace.
