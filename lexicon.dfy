/**
 * The word list and its letter index (lexicon.go).
 *
 * `AllWords` groups the dictionary by word length; within a length class a
 * word is identified by its position. `Lexicon` holds, for every length L,
 * L layers (one per character position), and every layer holds 26 bitsets
 * (one per letter): bit i of layer p, letter c, is set exactly when word i of
 * the class has letter c at position p.
 */
module Lexicon {
  import opened Wrappers
  import opened Text

  /** Number of bitsets in a layer: one per lowercase letter (lexicon.go:22). */
  const ALPHABET_SIZE: nat := 26

  predicate IsLower(c: char) {
    'a' <= c <= 'z'
  }

  /** The letter with alphabet index k ('a' + k). */
  function Letter(k: nat): char
    requires k < ALPHABET_SIZE
  {
    (('a' as int) + k) as char
  }

  /**
   * `letter - 'a'` (lexicon.go:63): the alphabet index of a letter. It lies in
   * 0..25 exactly for lowercase letters and then inverts Letter.
   */
  function LetterIndex(c: char): (k: int)
    ensures IsLower(c) <==> 0 <= k < ALPHABET_SIZE
    ensures 0 <= k < ALPHABET_SIZE ==> Letter(k) == c
  {
    c as int - 'a' as int
  }

  /** Distinct alphabet indices name distinct letters. */
  lemma LetterInjective(j: nat, k: nat)
    requires j < ALPHABET_SIZE && k < ALPHABET_SIZE && j != k
    ensures Letter(j) != Letter(k)
  {
  }

  /**
   * A bitset of word indices (the library's `bitarray.BitArray`), kept as the
   * set of indices whose bit is set, with the capacity it was created with.
   */
  datatype BitArray = BitArray(capacity: nat, bits: set<nat>)

  /** The error `SetBit` reports for an index beyond the capacity. */
  datatype BitError = OutOfRange(index: nat, capacity: nat)

  /** Every set bit lies below the capacity. */
  predicate Bounded(b: BitArray) {
    forall i :: i in b.bits ==> i < b.capacity
  }

  /** `bitarray.NewBitArray(size)`: no bit set. */
  function NewBitArray(size: nat): (b: BitArray)
    ensures b.capacity == size && Bounded(b)
    ensures forall i :: i !in b.bits
  {
    BitArray(size, {})
  }

  /**
   * `SetBit(k)`: sets bit k and no other, or fails, changing nothing, when
   * k is not below the capacity; so it keeps every bit below the capacity.
   */
  function SetBit(b: BitArray, k: nat): (r: Result<BitArray, BitError>)
    ensures r.Ok? <==> k < b.capacity
    ensures r.Ok? ==> r.value.capacity == b.capacity && forall i :: i in r.value.bits <==> i in b.bits || i == k
    ensures r.Ok? && Bounded(b) ==> Bounded(r.value)
    ensures r.Err? ==> r.error == OutOfRange(k, b.capacity)
  {
    if k < b.capacity then Ok(b.(bits := b.bits + {k})) else Err(OutOfRange(k, b.capacity))
  }

  /** Go's `[26]bitarray.BitArray`: exactly one bitset per letter. */
  type LetterSets = s: seq<BitArray> | |s| == ALPHABET_SIZE
    witness seq(ALPHABET_SIZE, _ => BitArray(0, {}))

  /** A Layer: the 26 bitsets of one character position. */
  datatype Layer = Layer(bitarrays: LetterSets)

  /** `layers[p].bitarrays[c]`: the bitset of letter c at position p. */
  function Bitset(layers: seq<Layer>, p: nat, c: nat): BitArray
    requires p < |layers| && c < ALPHABET_SIZE
  {
    layers[p].bitarrays[c]
  }

  /**
   * NewLayer (lexicon.go:27-34): 26 bitsets, all empty, each created with
   * capacity `bitarrSize`.
   */
  method NewLayer(bitarrSize: nat) returns (layer: Layer)
    ensures forall c :: 0 <= c < ALPHABET_SIZE ==> layer.bitarrays[c] == BitArray(bitarrSize, {})
  {
    // Go's zero Layer holds 26 nil bitsets; every one is overwritten below.
    var arrs: LetterSets := seq(ALPHABET_SIZE, _ => BitArray(0, {}));
    for i := 0 to ALPHABET_SIZE
      invariant forall c :: 0 <= c < i ==> arrs[c] == NewBitArray(bitarrSize)
    {
      arrs := arrs[i := NewBitArray(bitarrSize)];
    }
    layer := Layer(arrs);
  }

  /** `AllWords[wlen]`: the class of length `wlen`, empty (nil) when absent. */
  function WordsOfLength(allWords: map<nat, seq<string>>, wlen: nat): seq<string> {
    if wlen in allWords then allWords[wlen] else []
  }

  /** Every word is filed under its own length. */
  ghost predicate WellKeyed(allWords: map<nat, seq<string>>) {
    forall wlen, i :: wlen in allWords && 0 <= i < |allWords[wlen]| ==> |allWords[wlen][i]| == wlen
  }

  /** Every character of every word is a lowercase letter. */
  ghost predicate Lowercase(allWords: map<nat, seq<string>>) {
    forall wlen, i, p :: wlen in allWords && 0 <= i < |allWords[wlen]| && 0 <= p < |allWords[wlen][i]| ==>
      IsLower(allWords[wlen][i][p])
  }

  // ---------------------------------------------------------------------
  // ReadAllWords: grouping the lines of the word file by length.
  // ---------------------------------------------------------------------

  /** One line's word, `strings.Split(line, ";")[0]` (lexicon.go:46). */
  function LineWord(line: string): string {
    FirstField(line, ';')
  }

  /** Appends the word of every line to the class of its length, in line order. */
  function AddLines(allWords: map<nat, seq<string>>, lines: seq<string>): map<nat, seq<string>>
    decreases |lines|
  {
    if lines == [] then allWords
    else
      var before := AddLines(allWords, lines[..|lines| - 1]);
      var word := LineWord(lines[|lines| - 1]);
      before[|word| := WordsOfLength(before, |word|) + [word]]
  }

  /** The words of the lines whose word has length `wlen`, in line order. */
  function LinesOfLength(lines: seq<string>, wlen: nat): seq<string>
    decreases |lines|
  {
    if lines == [] then []
    else
      var word := LineWord(lines[|lines| - 1]);
      LinesOfLength(lines[..|lines| - 1], wlen) + (if |word| == wlen then [word] else [])
  }

  /**
   * After the lines are added, the class of length `wlen` is the old class
   * followed by the words of that length in line order; a class exists
   * exactly when it existed before or some line contributes to it.
   */
  lemma {:induction false} AddLinesGroups(allWords: map<nat, seq<string>>, lines: seq<string>, wlen: nat)
    ensures WordsOfLength(AddLines(allWords, lines), wlen) == WordsOfLength(allWords, wlen) + LinesOfLength(lines, wlen)
    ensures wlen in AddLines(allWords, lines) <==> wlen in allWords || LinesOfLength(lines, wlen) != []
    decreases |lines|
  {
    if lines != [] {
      var init := lines[..|lines| - 1];
      AddLinesGroups(allWords, init, wlen);
      var before := AddLines(allWords, init);
      var word := LineWord(lines[|lines| - 1]);
      assert AddLines(allWords, lines) == before[|word| := WordsOfLength(before, |word|) + [word]];
      assert LinesOfLength(lines, wlen) == LinesOfLength(init, wlen) + (if |word| == wlen then [word] else []);
    }
  }

  /** Every word the grouping files has the length it is filed under. */
  lemma {:induction false} LinesOfLengthHaveLength(lines: seq<string>, wlen: nat)
    ensures forall i :: 0 <= i < |LinesOfLength(lines, wlen)| ==> |LinesOfLength(lines, wlen)[i]| == wlen
    decreases |lines|
  {
    if lines != [] {
      LinesOfLengthHaveLength(lines[..|lines| - 1], wlen);
    }
  }

  /** Grouping lines keeps every word under its own length. */
  lemma AddLinesWellKeyed(allWords: map<nat, seq<string>>, lines: seq<string>)
    requires WellKeyed(allWords)
    ensures WellKeyed(AddLines(allWords, lines))
  {
    var m := AddLines(allWords, lines);
    forall wlen, i | wlen in m && 0 <= i < |m[wlen]|
      ensures |m[wlen][i]| == wlen
    {
      AddLinesGroups(allWords, lines, wlen);
      LinesOfLengthHaveLength(lines, wlen);
      assert m[wlen] == WordsOfLength(allWords, wlen) + LinesOfLength(lines, wlen);
      if i >= |WordsOfLength(allWords, wlen)| {
        assert m[wlen][i] == LinesOfLength(lines, wlen)[i - |WordsOfLength(allWords, wlen)|];
      }
    }
  }

  // ---------------------------------------------------------------------
  // NewLexicon: what a finished index is.
  // ---------------------------------------------------------------------

  /**
   * Layers `layers` index `words` (all of length `wlen`) for the words before
   * `n` completely and for word `n` at the positions before `m`: every bitset
   * has capacity |words| and holds exactly the recorded indices of the words
   * with that letter at that position.
   */
  ghost predicate PartlyIndexed(words: seq<string>, wlen: nat, layers: seq<Layer>, n: nat, m: nat) {
    && |layers| == wlen
    && forall p: nat, c: nat :: p < wlen && c < ALPHABET_SIZE ==>
         && Bitset(layers, p, c).capacity == |words|
         && forall i: nat :: i in Bitset(layers, p, c).bits <==>
              (i < n || (i == n && p < m)) && i < |words| && p < |words[i]| && words[i][p] == Letter(c)
  }

  /** The layers of length class `words` are complete. */
  ghost predicate LayersIndex(words: seq<string>, wlen: nat, layers: seq<Layer>) {
    PartlyIndexed(words, wlen, layers, |words|, 0)
  }

  /**
   * The whole lexicon indexes every length class of `allWords`. The class of
   * the empty word has no positions, and so no layers and no entry.
   */
  ghost predicate Indexes(allWords: map<nat, seq<string>>, lexicon: map<nat, seq<Layer>>) {
    forall wlen :: wlen in allWords && wlen > 0 ==> wlen in lexicon && LayersIndex(allWords[wlen], wlen, lexicon[wlen])
  }

  /**
   * `Lexicon[wlen][p].bitarrays[c]` read as a set: the indices of the words
   * of length `wlen` with letter c at position p.
   */
  function Candidates(lexicon: map<nat, seq<Layer>>, wlen: nat, p: nat, c: nat): set<nat>
    requires wlen in lexicon && p < |lexicon[wlen]| && c < ALPHABET_SIZE
  {
    Bitset(lexicon[wlen], p, c).bits
  }

  /**
   * In a finished index, the candidate set is empty exactly when no word of
   * the class has that letter at that position; otherwise it names one.
   */
  lemma CandidatesEmptyIff(allWords: map<nat, seq<string>>, lexicon: map<nat, seq<Layer>>, wlen: nat, p: nat, c: nat)
    requires WellKeyed(allWords) && Indexes(allWords, lexicon)
    requires wlen in allWords && p < wlen && c < ALPHABET_SIZE
    ensures wlen in lexicon && |lexicon[wlen]| == wlen
    ensures Candidates(lexicon, wlen, p, c) == {} <==>
      forall i :: 0 <= i < |allWords[wlen]| ==> allWords[wlen][i][p] != Letter(c)
  {
    var words := allWords[wlen];
    var bits := Candidates(lexicon, wlen, p, c);
    assert LayersIndex(words, wlen, lexicon[wlen]);
    if bits != {} {
      var i :| i in bits;
      assert i < |words| && p < |words[i]| && words[i][p] == Letter(c);
    } else {
      forall i | 0 <= i < |words| ensures words[i][p] != Letter(c) {
        assert i !in bits;
      }
    }
  }

  /** Starting a class: `wlen` fresh layers whose bitsets are empty. */
  lemma FreshLayersIndexNothing(words: seq<string>, wlen: nat, layers: seq<Layer>)
    requires |layers| == wlen
    requires forall p: nat, c: nat :: p < wlen && c < ALPHABET_SIZE ==> Bitset(layers, p, c) == BitArray(|words|, {})
    ensures PartlyIndexed(words, wlen, layers, 0, 0)
  {
  }

  /** Recording word n's letter at position m sets exactly one more bit. */
  lemma RecordLetter(words: seq<string>, wlen: nat, layers: seq<Layer>, n: nat, m: nat)
    requires PartlyIndexed(words, wlen, layers, n, m)
    requires n < |words| && m < wlen && |words[n]| == wlen && IsLower(words[n][m])
    ensures var ch := LetterIndex(words[n][m]);
      var b := layers[m].bitarrays[ch];
      PartlyIndexed(words, wlen, layers[m := Layer(layers[m].bitarrays[ch := b.(bits := b.bits + {n})])], n, m + 1)
  {
    var ch := LetterIndex(words[n][m]);
    var b := layers[m].bitarrays[ch];
    var layers' := layers[m := Layer(layers[m].bitarrays[ch := b.(bits := b.bits + {n})])];
    forall p: nat, c: nat | p < wlen && c < ALPHABET_SIZE
      ensures Bitset(layers', p, c).capacity == |words|
      ensures forall i: nat :: i in Bitset(layers', p, c).bits <==>
              (i < n || (i == n && p < m + 1)) && i < |words| && p < |words[i]| && words[i][p] == Letter(c)
    {
      var old_b := Bitset(layers, p, c);
      if p == m && c == ch {
        assert Bitset(layers', p, c) == old_b.(bits := old_b.bits + {n});
      } else {
        assert Bitset(layers', p, c) == old_b;
        if p == m {
          LetterInjective(c, ch);
        }
      }
    }
  }

  /** Word n recorded at every position is the same as words up to n + 1. */
  lemma NextWord(words: seq<string>, wlen: nat, layers: seq<Layer>, n: nat)
    requires n < |words| && |words[n]| == wlen
    requires PartlyIndexed(words, wlen, layers, n, wlen)
    ensures PartlyIndexed(words, wlen, layers, n + 1, 0)
  {
    forall p: nat, c: nat | p < wlen && c < ALPHABET_SIZE
      ensures forall i: nat :: i in Bitset(layers, p, c).bits <==>
              (i < n + 1 || (i == n + 1 && p < 0)) && i < |words| && p < |words[i]| && words[i][p] == Letter(c)
    {
    }
  }

  /** The global `AllWords` and `Lexicon` of lexicon.go:15-19. */
  class Dictionary {
    var allWords: map<nat, seq<string>>
    var lexicon: map<nat, seq<Layer>>

    /** Both maps start empty, as the package-level `make` calls leave them. */
    constructor ()
      ensures allWords == map[] && lexicon == map[]
    {
      allWords := map[];
      lexicon := map[];
    }

    /**
     * The line grouping of ReadAllWords (lexicon.go:44-50), given the file's
     * text: each line's word (its text before the first ';') is appended to
     * the class of its length.
     */
    method ReadAllWords(data: string)
      modifies this
      ensures allWords == AddLines(old(allWords), Split(data, '\n'))
      ensures lexicon == old(lexicon)
    {
      var lines := Split(data, '\n');
      for k := 0 to |lines|
        invariant allWords == AddLines(old(allWords), lines[..k])
        invariant lexicon == old(lexicon)
      {
        var word := LineWord(lines[k]);
        var wlen := |word|;
        allWords := allWords[wlen := WordsOfLength(allWords, wlen) + [word]];
        assert lines[..k + 1][..k] == lines[..k];
      }
      assert lines[..|lines|] == lines;
    }

    /**
     * NewLexicon (lexicon.go:53-72). For every length class, in the map's
     * unspecified order, it appends `wlen` fresh layers to `Lexicon[wlen]` and
     * then sets, for every word and position, the bit of the word's letter.
     * A word longer than its class or a character outside 'a'..'z' would
     * index out of range, so the words must be filed by length and lowercase.
     * When the lexicon has no layers yet for the lengths being indexed, no
     * SetBit fails and the result indexes every class exactly; other lengths
     * are never touched. The class of the empty word (a blank line of the
     * word file) gets no entry: its loop of appends never runs.
     */
    method NewLexicon() returns (err: Option<BitError>)
      requires WellKeyed(allWords) && Lowercase(allWords)
      modifies this
      ensures allWords == old(allWords)
      ensures forall wlen :: wlen in old(lexicon) && wlen !in allWords ==> wlen in lexicon && lexicon[wlen] == old(lexicon)[wlen]
      ensures (forall wlen :: wlen in allWords ==> wlen !in old(lexicon)) ==>
        && err == None
        && lexicon.Keys == old(lexicon).Keys + (allWords.Keys - {0})
        && Indexes(allWords, lexicon)
    {
      ghost var unindexed := forall wlen :: wlen in allWords ==> wlen !in old(lexicon);
      var remaining := allWords.Keys;
      while remaining != {}
        invariant remaining <= allWords.Keys
        invariant allWords == old(allWords)
        invariant forall wlen :: wlen in old(lexicon) && wlen !in allWords ==> wlen in lexicon && lexicon[wlen] == old(lexicon)[wlen]
        invariant unindexed ==> lexicon.Keys == old(lexicon).Keys + (allWords.Keys - remaining - {0})
        invariant unindexed ==> forall wlen :: wlen in allWords.Keys - remaining && wlen > 0 ==> LayersIndex(allWords[wlen], wlen, lexicon[wlen])
        decreases remaining
      {
        var wlen :| wlen in remaining;
        remaining := remaining - {wlen};
        ghost var keys := lexicon.Keys;
        AppendLayers(wlen, |allWords[wlen]|);
        if unindexed && wlen > 0 {
          FreshLayersIndexNothing(allWords[wlen], wlen, lexicon[wlen]);
        }
        err := IndexWords(wlen);
        if err.Some? {
          return;
        }
        assert lexicon.Keys == keys + ({wlen} - {0});
      }
      return None;
    }

    /**
     * lexicon.go:56-58: appends `wlen` fresh layers of capacity `size` to
     * `Lexicon[wlen]`, one per pass (a nil entry counts as no layers). For
     * `wlen` = 0 the loop never runs and the entry is not created.
     */
    method AppendLayers(wlen: nat, size: nat)
      modifies this
      ensures allWords == old(allWords)
      ensures forall l :: l != wlen ==> (l in lexicon <==> l in old(lexicon)) && (l in lexicon ==> lexicon[l] == old(lexicon)[l])
      ensures wlen in lexicon <==> wlen in old(lexicon) || wlen > 0
      ensures wlen in lexicon ==> var start := if wlen in old(lexicon) then old(lexicon)[wlen] else [];
        && |lexicon[wlen]| == |start| + wlen
        && lexicon[wlen][..|start|] == start
        && forall p: nat, c: nat :: |start| <= p < |start| + wlen && c < ALPHABET_SIZE ==>
             Bitset(lexicon[wlen], p, c) == BitArray(size, {})
    {
      var layers := if wlen in lexicon then lexicon[wlen] else [];
      ghost var start := layers;
      for i := 0 to wlen
        invariant allWords == old(allWords)
        invariant lexicon == if i == 0 then old(lexicon) else old(lexicon)[wlen := layers]
        invariant |layers| == |start| + i && layers[..|start|] == start
        invariant forall p: nat, c: nat :: |start| <= p < |start| + i && c < ALPHABET_SIZE ==>
          Bitset(layers, p, c) == BitArray(size, {})
      {
        var layer := NewLayer(size);
        var next := layers + [layer];
        assert forall p: nat, c: nat :: p < |layers| && c < ALPHABET_SIZE ==> Bitset(next, p, c) == Bitset(layers, p, c);
        assert forall c: nat :: c < ALPHABET_SIZE ==> Bitset(next, |layers|, c) == layer.bitarrays[c];
        layers := next;
        lexicon := lexicon[wlen := layers];
      }
    }

    /**
     * lexicon.go:60-68: for every word of the class and every position, sets
     * the word's bit in the bitset of its letter, stopping at the first
     * SetBit error. When the class's layers are exactly `wlen` fresh empty
     * ones of the class's size, no error occurs and the layers end up
     * indexing the class.
     */
    method IndexWords(wlen: nat) returns (err: Option<BitError>)
      requires wlen in allWords && WellKeyed(allWords) && Lowercase(allWords)
      requires wlen in lexicon || wlen == 0
      requires wlen in lexicon ==> |lexicon[wlen]| >= wlen
      modifies this
      ensures allWords == old(allWords)
      ensures forall l :: (l in lexicon <==> l in old(lexicon)) && (l != wlen && l in lexicon ==> lexicon[l] == old(lexicon)[l])
      ensures wlen in old(lexicon) && PartlyIndexed(allWords[wlen], wlen, old(lexicon)[wlen], 0, 0) ==>
        err == None && LayersIndex(allWords[wlen], wlen, lexicon[wlen])
      ensures wlen !in old(lexicon) ==> err == None && lexicon == old(lexicon)
    {
      ghost var ready := wlen in lexicon && PartlyIndexed(allWords[wlen], wlen, lexicon[wlen], 0, 0);
      var words := allWords[wlen];
      for wordIdx := 0 to |words|
        invariant allWords == old(allWords)
        invariant wlen in lexicon ==> |lexicon[wlen]| >= wlen
        invariant wlen !in old(lexicon) ==> lexicon == old(lexicon)
        invariant ready ==> wlen in lexicon && PartlyIndexed(words, wlen, lexicon[wlen], wordIdx, 0)
        invariant forall l :: (l in lexicon <==> l in old(lexicon)) && (l != wlen && l in lexicon ==> lexicon[l] == old(lexicon)[l])
      {
        var word := words[wordIdx];
        assert |word| == wlen;
        for letterIdx := 0 to |word|
          invariant allWords == old(allWords)
          invariant wlen in lexicon ==> |lexicon[wlen]| >= wlen
          invariant wlen !in old(lexicon) ==> lexicon == old(lexicon)
          invariant ready ==> wlen in lexicon && PartlyIndexed(words, wlen, lexicon[wlen], wordIdx, letterIdx)
          invariant forall l :: (l in lexicon <==> l in old(lexicon)) && (l != wlen && l in lexicon ==> lexicon[l] == old(lexicon)[l])
        {
          var ch := LetterIndex(word[letterIdx]);
          var layer := lexicon[wlen][letterIdx];
          var res := SetBit(layer.bitarrays[ch], wordIdx);
          assert ready ==> Bitset(lexicon[wlen], letterIdx, ch).capacity == |words|;
          if res.Err? {
            return Some(res.error);
          }
          if ready {
            RecordLetter(words, wlen, lexicon[wlen], wordIdx, letterIdx);
          }
          // The layer struct is a copy, but its bitsets are shared with the
          // lexicon, so setting the bit updates Lexicon[wlen][letterIdx].
          lexicon := lexicon[wlen := lexicon[wlen][letterIdx := Layer(layer.bitarrays[ch := res.value])]];
        }
        if ready {
          NextWord(words, wlen, lexicon[wlen], wordIdx);
        }
      }
      return None;
    }
  }

  /**
   * The scenario of lexicon_test.go:14-34: with the classes
   * 3: ["aaa", "aba"] and 4: ["aaah", "aaas"] indexed, 's' at position 3 of
   * length 4 selects word 1, 'a' at position 0 of length 4 selects both, and
   * 'a' at position 0 of length 3 selects both.
   */
  lemma LexiconScenario(lexicon: map<nat, seq<Layer>>)
    requires Indexes(map[3 := ["aaa", "aba"], 4 := ["aaah", "aaas"], 12 := ["aaabatteries"]], lexicon)
    ensures 4 in lexicon && |lexicon[4]| == 4 && 3 in lexicon && |lexicon[3]| == 3
    ensures Candidates(lexicon, 4, 3, LetterIndex('s')) == {1}
    ensures Candidates(lexicon, 4, 0, LetterIndex('a')) == {0, 1}
    ensures Candidates(lexicon, 3, 0, LetterIndex('a')) == {0, 1}
  {
    var w4: seq<string> := ["aaah", "aaas"];
    var w3: seq<string> := ["aaa", "aba"];
    assert LayersIndex(w4, 4, lexicon[4]);
    assert LayersIndex(w3, 3, lexicon[3]);
    var s43 := Candidates(lexicon, 4, 3, LetterIndex('s'));
    assert forall i: nat :: i in s43 <==> i < 2 && w4[i][3] == 's';
    assert w4[0][3] == 'h' && w4[1][3] == 's';
    assert s43 == {1};
    var a40 := Candidates(lexicon, 4, 0, LetterIndex('a'));
    assert forall i: nat :: i in a40 <==> i < 2 && w4[i][0] == 'a';
    assert a40 == {0, 1};
    var a30 := Candidates(lexicon, 3, 0, LetterIndex('a'));
    assert forall i: nat :: i in a30 <==> i < 2 && w3[i][0] == 'a';
    assert a30 == {0, 1};
  }
}
