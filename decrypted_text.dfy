/**
 * The text-scrambling effect's two pure cores: the order in which positions
 * are revealed, and the scrambled text shown between reveals. `Math.random`
 * is an oracle `rolls`; a draw `Math.floor(Math.random() * n)` is modelled as
 * `rolls(k) % n`, which ranges over the same values.
 */
module DecryptedText {

  /** `revealDirection`; any other value takes the default branch, which behaves like start. */
  datatype Direction = Start | End | Center | Other

  /** The indices `0 .. n-1`. */
  function Range(n: int): set<int> {
    if n <= 0 then {} else Range(n - 1) + {n - 1}
  }

  lemma {:induction false} RangeMembers(n: int)
    ensures forall i :: i in Range(n) <==> 0 <= i < n
  {
    if n > 0 {
      RangeMembers(n - 1);
    }
  }

  /** The first index in `[from, len)` not yet revealed, else 0: the loop at the end of the center case. */
  function FirstUnrevealed(len: int, revealed: set<int>, from: int): (r: int)
    requires 0 <= from
    ensures (exists i :: from <= i < len && i !in revealed) ==> from <= r < len && r !in revealed
    decreases len - from
  {
    if from >= len then 0
    else if from !in revealed then from
    else FirstUnrevealed(len, revealed, from + 1)
  }

  /** `getNextIndex` for a text of length `len`. */
  function NextIndex(len: nat, revealed: set<int>, dir: Direction): int {
    match dir
    case Start => |revealed|
    case Other => |revealed|
    case End => len - 1 - |revealed|
    case Center =>
      var middle := len / 2;
      var offset := |revealed| / 2;
      var candidate := if |revealed| % 2 == 0 then middle + offset else middle - offset - 1;
      if 0 <= candidate < len && candidate !in revealed then candidate
      else FirstUnrevealed(len, revealed, 0)
  }

  /** `getNextIndex`, with its scan loop. */
  method GetNextIndex(len: nat, revealed: set<int>, dir: Direction) returns (next: int)
    ensures next == NextIndex(len, revealed, dir)
  {
    match dir {
      case Start => return |revealed|;
      case Other => return |revealed|;
      case End => return len - 1 - |revealed|;
      case Center =>
        var middle := len / 2;
        var offset := |revealed| / 2;
        var candidate := if |revealed| % 2 == 0 then middle + offset else middle - offset - 1;
        if 0 <= candidate < len && candidate !in revealed {
          return candidate;
        }
        for i := 0 to len
          invariant FirstUnrevealed(len, revealed, 0) == FirstUnrevealed(len, revealed, i)
        {
          if i !in revealed {
            return i;
          }
        }
        return 0;
    }
  }

  /** Start reveals the count so far, end counts back from the last index, center alternates around the middle. */
  lemma DirectionCandidates(len: nat, revealed: set<int>)
    ensures NextIndex(len, revealed, Start) == |revealed| == NextIndex(len, revealed, Other)
    ensures NextIndex(len, revealed, End) == len - 1 - |revealed|
    ensures var c := if |revealed| % 2 == 0 then len / 2 + |revealed| / 2 else len / 2 - |revealed| / 2 - 1;
      0 <= c < len && c !in revealed ==> NextIndex(len, revealed, Center) == c
  {
  }

  /** While fewer than `len` in-range indices are revealed, some index in range is still hidden. */
  lemma {:induction false} SomeUnrevealed(len: nat, revealed: set<int>)
    requires forall i :: i in revealed ==> 0 <= i < len
    requires |revealed| < len
    ensures exists i :: 0 <= i < len && i !in revealed
  {
    if len - 1 in revealed {
      var rest := revealed - {len - 1};
      SomeUnrevealed(len - 1, rest);
      var i :| 0 <= i < len - 1 && i !in rest;
      assert i !in revealed;
    } else {
      assert 0 <= len - 1 < len;
    }
  }

  /** In center mode every step reveals an index in range that was still hidden. */
  lemma CenterIsFresh(len: nat, revealed: set<int>)
    requires forall i :: i in revealed ==> 0 <= i < len
    requires |revealed| < len
    ensures 0 <= NextIndex(len, revealed, Center) < len && NextIndex(len, revealed, Center) !in revealed
  {
    SomeUnrevealed(len, revealed);
  }

  /** Once every index is revealed the center candidate is taken, so the scan finds nothing and returns 0. */
  lemma AllRevealedGivesZero(len: nat, revealed: set<int>)
    requires forall i :: 0 <= i < len ==> i in revealed
    ensures NextIndex(len, revealed, Center) == 0
  {
    FirstUnrevealedAllSeen(len, revealed, 0);
  }

  lemma {:induction false} FirstUnrevealedAllSeen(len: int, revealed: set<int>, from: nat)
    requires forall i :: from <= i < len ==> i in revealed
    ensures FirstUnrevealed(len, revealed, from) == 0
    decreases len - from
  {
    if from < len {
      FirstUnrevealedAllSeen(len, revealed, from + 1);
    }
  }

  /** One tick of the sequential reveal: add the next index while fewer than `len` are revealed. */
  function RevealStep(len: nat, revealed: set<int>, dir: Direction): (r: set<int>)
    ensures revealed <= r && |r| <= |revealed| + 1
    ensures |revealed| >= len ==> r == revealed
  {
    if |revealed| < len then revealed + {NextIndex(len, revealed, dir)} else revealed
  }

  /** The indices revealed after `k` ticks, starting from none. */
  function RevealedAfter(len: nat, dir: Direction, k: nat): set<int> {
    if k == 0 then {} else RevealStep(len, RevealedAfter(len, dir, k - 1), dir)
  }

  /** Center mode reveals a new in-range index at each of the first `len` steps. */
  lemma {:induction false} CenterRevealsDistinct(len: nat, k: nat)
    requires k <= len
    ensures |RevealedAfter(len, Center, k)| == k
    ensures forall i :: i in RevealedAfter(len, Center, k) ==> 0 <= i < len
  {
    if k > 0 {
      CenterRevealsDistinct(len, k - 1);
      CenterIsFresh(len, RevealedAfter(len, Center, k - 1));
    }
  }

  lemma SubsetOfEqualSize(a: set<int>, b: set<int>)
    requires forall x :: x in a ==> x in b
    requires |a| == |b|
    ensures a == b
  {
    var d := b - a;
    assert forall x :: x in a + d <==> x in b;
    assert a + d == b;
    assert forall x :: x !in a * d;
    assert a * d == {};
    assert |d| == 0;
    assert forall x :: x in a <==> x in b;
  }

  lemma {:induction false} RangeSize(n: nat)
    ensures |Range(n)| == n
  {
    if n > 0 {
      RangeSize(n - 1);
      RangeMembers(n - 1);
      assert n - 1 !in Range(n - 1);
    }
  }

  /** Further ticks after everything is revealed change nothing. */
  lemma {:induction false} RevealStopsAtLength(len: nat, k: nat)
    requires k >= len
    ensures RevealedAfter(len, Center, k) == Range(len)
  {
    if k == len {
      CenterCoversAll(len);
    } else {
      RevealStopsAtLength(len, k - 1);
      RangeSize(len);
      var before := RevealedAfter(len, Center, k - 1);
      assert |before| >= len;
      assert RevealedAfter(len, Center, k) == RevealStep(len, before, Center);
    }
  }

  /** After `len` center-mode steps every index has been revealed, each exactly once. */
  lemma CenterCoversAll(len: nat)
    ensures RevealedAfter(len, Center, len) == Range(len)
  {
    CenterRevealsDistinct(len, len);
    RangeSize(len);
    RangeMembers(len);
    var all := RevealedAfter(len, Center, len);
    SubsetOfEqualSize(all, Range(len));
  }

  /** Start mode reveals left to right: after `k` steps exactly the first `k` indices. */
  lemma {:induction false} StartRevealsInOrder(len: nat, k: nat)
    requires k <= len
    ensures RevealedAfter(len, Start, k) == Range(k)
  {
    if k > 0 {
      var before := RevealedAfter(len, Start, k - 1);
      StartRevealsInOrder(len, k - 1);
      RangeSize(k - 1);
      assert |before| == k - 1 < len;
      assert NextIndex(len, before, Start) == k - 1;
      assert RevealedAfter(len, Start, k) == before + {k - 1};
    }
  }

  /** End mode reveals right to left: after `k` steps exactly the last `k` indices. */
  lemma {:induction false} EndRevealsInOrder(len: nat, k: nat)
    requires k <= len
    ensures |RevealedAfter(len, End, k)| == k
    ensures forall i :: i in RevealedAfter(len, End, k) <==> len - k <= i < len
  {
    if k > 0 {
      var before := RevealedAfter(len, End, k - 1);
      EndRevealsInOrder(len, k - 1);
      assert NextIndex(len, before, End) == len - k;
      assert len - k !in before;
      assert RevealedAfter(len, End, k) == before + {len - k};
    }
  }

  // ------------------------------------------------------------------ character pool

  /** The distinct characters of `s`, in order of first occurrence. */
  function Distinct(s: string): (r: string)
    ensures forall c :: c in r <==> c in s
    ensures forall i, j :: 0 <= i < j < |r| ==> r[i] != r[j]
  {
    if s == [] then []
    else
      var front := Distinct(s[..|s| - 1]);
      assert forall c :: c in s <==> c in s[..|s| - 1] || c == s[|s| - 1];
      if s[|s| - 1] in front then front else front + [s[|s| - 1]]
  }

  predicate AllDistinct(s: string) {
    forall i, j :: 0 <= i < j < |s| ==> s[i] != s[j]
  }

  function WithoutSpaces(s: string): (r: string)
    ensures forall c :: c in r <==> c in s && c != ' '
  {
    if s == [] then []
    else (if s[0] == ' ' then [] else [s[0]]) + WithoutSpaces(s[1..])
  }

  /** Dropping spaces keeps the characters distinct. */
  lemma {:induction false} WithoutSpacesDistinct(s: string)
    requires AllDistinct(s)
    ensures AllDistinct(WithoutSpaces(s))
  {
    if s != [] {
      assert AllDistinct(s[1..]) by {
        forall i, j | 0 <= i < j < |s[1..]| ensures s[1..][i] != s[1..][j] {
          assert s[1..][i] == s[i + 1] && s[1..][j] == s[j + 1];
        }
      }
      WithoutSpacesDistinct(s[1..]);
      assert s[0] !in s[1..];
    }
  }

  /** `availableChars`: the text's own distinct non-space characters, or the configured character set. */
  function AvailableChars(useOriginalCharsOnly: bool, text: string, characters: string): string {
    if useOriginalCharsOnly then WithoutSpaces(Distinct(text)) else characters
  }

  /** In original-chars mode the pool is the set of the text's non-space characters, each once. */
  lemma OriginalPool(text: string, characters: string)
    ensures var pool := AvailableChars(true, text, characters);
      && (forall c :: c in pool <==> c in text && c != ' ')
      && AllDistinct(pool)
  {
    WithoutSpacesDistinct(Distinct(text));
  }

  // ------------------------------------------------------------------ random-charset scrambling

  /** What one position shows: spaces and revealed characters stay, others draw from the pool (nothing when it is empty). */
  function RandomPiece(text: string, revealed: set<int>, pool: string, rolls: nat -> nat, i: nat): string
    requires i < |text|
  {
    if text[i] == ' ' then " "
    else if i in revealed then [text[i]]
    else if |pool| > 0 then [pool[rolls(i) % |pool|]]
    else []
  }

  function Concat(pieces: seq<string>): string {
    if pieces == [] then [] else pieces[0] + Concat(pieces[1..])
  }

  /** The random-charset branch of `shuffleText`: map each character, then join. */
  function ShuffleRandom(text: string, revealed: set<int>, pool: string, rolls: nat -> nat): string {
    Concat(seq(|text|, i requires 0 <= i < |text| => RandomPiece(text, revealed, pool, rolls, i)))
  }

  lemma {:induction false} ConcatSingles(pieces: seq<string>)
    requires forall k :: 0 <= k < |pieces| ==> |pieces[k]| == 1
    ensures |Concat(pieces)| == |pieces|
    ensures forall k :: 0 <= k < |pieces| ==> Concat(pieces)[k] == pieces[k][0]
  {
    if pieces != [] {
      ConcatSingles(pieces[1..]);
    }
  }

  /** With a non-empty pool the length is kept, spaces stay spaces, revealed positions show the original and the rest come from the pool. */
  lemma RandomShuffleShape(text: string, revealed: set<int>, pool: string, rolls: nat -> nat)
    requires |pool| > 0
    ensures var r := ShuffleRandom(text, revealed, pool, rolls);
      && |r| == |text|
      && (forall i :: 0 <= i < |text| && text[i] == ' ' ==> r[i] == ' ')
      && (forall i :: 0 <= i < |text| && i in revealed ==> r[i] == text[i])
      && (forall i :: 0 <= i < |text| && text[i] != ' ' && i !in revealed ==> r[i] in pool)
  {
    var pieces := seq(|text|, i requires 0 <= i < |text| => RandomPiece(text, revealed, pool, rolls, i));
    ConcatSingles(pieces);
  }

  /** The characters at the positions that are not hidden (spaces and revealed ones), in order. */
  function Visible(t: string, revealed: set<int>): string {
    if t == [] then []
    else Visible(t[..|t| - 1], revealed) + (if t[|t| - 1] == ' ' || |t| - 1 in revealed then [t[|t| - 1]] else [])
  }

  /** Every position is either hidden or visible. */
  lemma {:induction false} VisibleAndHidden(t: string, revealed: set<int>)
    ensures |Visible(t, revealed)| + |Hidden(t, revealed)| == |t|
  {
    if t != [] {
      VisibleAndHidden(t[..|t| - 1], revealed);
    }
  }

  lemma {:induction false} ConcatAppend(pieces: seq<string>, x: string)
    ensures Concat(pieces + [x]) == Concat(pieces) + x
  {
    if pieces != [] {
      assert (pieces + [x])[1..] == pieces[1..] + [x];
      ConcatAppend(pieces[1..], x);
    } else {
      assert [x][1..] == [];
    }
  }

  /** With an empty pool the first `n` positions join to what is visible among them. */
  lemma {:induction false} EmptyPoolPrefix(text: string, revealed: set<int>, rolls: nat -> nat, n: nat)
    requires n <= |text|
    ensures Concat(seq(n, i requires 0 <= i < n => RandomPiece(text, revealed, [], rolls, i))) == Visible(text[..n], revealed)
  {
    if n > 0 {
      var pieces := seq(n, i requires 0 <= i < n => RandomPiece(text, revealed, [], rolls, i));
      var front := seq(n - 1, i requires 0 <= i < n - 1 => RandomPiece(text, revealed, [], rolls, i));
      assert pieces == front + [RandomPiece(text, revealed, [], rolls, n - 1)];
      ConcatAppend(front, RandomPiece(text, revealed, [], rolls, n - 1));
      EmptyPoolPrefix(text, revealed, rolls, n - 1);
      assert text[..n][..n - 1] == text[..n - 1];
      assert text[..n][n - 1] == text[n - 1];
    }
  }

  /**
   * With an empty character set the hidden characters are dropped: what
   * remains is the spaces and revealed characters in their order, shorter by
   * the number of hidden positions.
   */
  lemma EmptyPoolKeepsVisible(text: string, revealed: set<int>, rolls: nat -> nat)
    ensures ShuffleRandom(text, revealed, [], rolls) == Visible(text, revealed)
    ensures |ShuffleRandom(text, revealed, [], rolls)| == |text| - |Hidden(text, revealed)|
  {
    EmptyPoolPrefix(text, revealed, rolls, |text|);
    assert text[..|text|] == text;
    VisibleAndHidden(text, revealed);
  }

  /** With an empty character set every hidden character is dropped, so the text gets shorter. */
  lemma EmptyPoolDropsCharacters(rolls: nat -> nat)
    ensures ShuffleRandom("a b", {}, [], rolls) == " "
  {
    var pieces := seq(3, i requires 0 <= i < 3 => RandomPiece("a b", {}, [], rolls, i));
    assert pieces == ["", " ", ""];
    assert pieces[1..] == [" ", ""];
    assert pieces[2..] == [""];
    assert pieces[2..][1..] == [];
    assert Concat(pieces[2..]) == "";
    assert Concat(pieces[1..]) == " ";
  }

  // ------------------------------------------------------------------ original-chars scrambling

  /** The characters at the hidden positions (not a space, not revealed), in order. */
  function Hidden(t: string, revealed: set<int>): string {
    if t == [] then []
    else Hidden(t[..|t| - 1], revealed) + (if t[|t| - 1] != ' ' && |t| - 1 !in revealed then [t[|t| - 1]] else [])
  }

  /** No hidden character is a space. */
  lemma {:induction false} HiddenHasNoSpaces(t: string, revealed: set<int>)
    ensures forall k :: 0 <= k < |Hidden(t, revealed)| ==> Hidden(t, revealed)[k] != ' '
  {
    if t != [] {
      HiddenHasNoSpaces(t[..|t| - 1], revealed);
    }
  }

  lemma {:induction false} HiddenPrefix(t: string, revealed: set<int>, p: nat)
    requires p <= |t|
    ensures |Hidden(t[..p], revealed)| <= |Hidden(t, revealed)|
    decreases |t| - p
  {
    if p < |t| {
      HiddenPrefix(t, revealed, p + 1);
      assert t[..p + 1][..p] == t[..p];
    } else {
      assert t[..p] == t;
    }
  }

  /** The swap loop: a permutation of the array, driven by the draws `rolls(i) % (i + 1)`. */
  method FisherYates(a: array<char>, rolls: nat -> nat)
    modifies a
    ensures multiset(a[..]) == multiset(old(a[..]))
  {
    var i := a.Length - 1;
    while i > 0
      invariant -1 <= i < a.Length
      invariant multiset(a[..]) == multiset(old(a[..]))
    {
      var j := rolls(i) % (i + 1);
      a[i], a[j] := a[j], a[i];
      i := i - 1;
    }
  }

  lemma HiddenAppend(t: string, c: char, revealed: set<int>)
    ensures Hidden(t + [c], revealed) == Hidden(t, revealed) + (if c != ' ' && |t| !in revealed then [c] else [])
  {
    assert (t + [c])[..|t|] == t;
  }

  /**
   * The `map` with its running `charIndex`: spaces and revealed characters
   * stay, and the dealt characters fill the hidden positions in order.
   */
  method Deal(text: string, revealed: set<int>, dealt: string) returns (r: string)
    requires |dealt| == |Hidden(text, revealed)|
    requires forall k :: 0 <= k < |dealt| ==> dealt[k] != ' '
    ensures |r| == |text|
    ensures forall i :: 0 <= i < |text| && text[i] == ' ' ==> r[i] == ' '
    ensures forall i :: 0 <= i < |text| && text[i] != ' ' && i in revealed ==> r[i] == text[i]
    ensures Hidden(r, revealed) == dealt
  {
    r := [];
    var charIndex := 0;
    for p := 0 to |text|
      invariant |r| == p && charIndex <= |dealt|
      invariant charIndex == |Hidden(text[..p], revealed)|
      invariant Hidden(r, revealed) == dealt[..charIndex]
      invariant forall i :: 0 <= i < p && text[i] == ' ' ==> r[i] == ' '
      invariant forall i :: 0 <= i < p && text[i] != ' ' && i in revealed ==> r[i] == text[i]
    {
      assert text[..p + 1] == text[..p] + [text[p]];
      HiddenAppend(text[..p], text[p], revealed);
      HiddenPrefix(text, revealed, p + 1);
      var c: char;
      if text[p] == ' ' {
        c := ' ';
      } else if p in revealed {
        c := text[p];
      } else {
        c := dealt[charIndex];
        charIndex := charIndex + 1;
        assert dealt[..charIndex] == dealt[..charIndex - 1] + [c];
      }
      HiddenAppend(r, c, revealed);
      r := r + [c];
    }
    assert text[..|text|] == text;
    assert dealt[..charIndex] == dealt;
  }

  /**
   * The original-chars branch of `shuffleText`: the hidden characters are
   * shuffled and dealt back into the hidden positions in order.
   */
  method ShuffleOriginal(text: string, revealed: set<int>, rolls: nat -> nat) returns (r: string)
    ensures |r| == |text|
    ensures forall i :: 0 <= i < |text| && text[i] == ' ' ==> r[i] == ' '
    ensures forall i :: 0 <= i < |text| && text[i] != ' ' && i in revealed ==> r[i] == text[i]
    ensures multiset(Hidden(r, revealed)) == multiset(Hidden(text, revealed))
  {
    var hidden := Hidden(text, revealed);
    HiddenHasNoSpaces(text, revealed);
    var pool := new char[|hidden|](k requires 0 <= k < |hidden| => hidden[k]);
    assert pool[..] == hidden;
    FisherYates(pool, rolls);
    var shuffled := pool[..];
    assert forall k :: 0 <= k < |shuffled| ==> shuffled[k] in multiset(hidden);
    r := Deal(text, revealed, shuffled);
  }

  /** `shuffleText`: either branch keeps spaces and revealed characters in place; only an empty character set changes the length. */
  method ShuffleText(useOriginalCharsOnly: bool, text: string, revealed: set<int>, characters: string, rolls: nat -> nat)
    returns (r: string)
    ensures useOriginalCharsOnly || |characters| > 0 ==>
      && |r| == |text|
      && (forall i :: 0 <= i < |text| && text[i] == ' ' ==> r[i] == ' ')
      && (forall i :: 0 <= i < |text| && text[i] != ' ' && i in revealed ==> r[i] == text[i])
    ensures !useOriginalCharsOnly && |characters| > 0 ==>
      forall i :: 0 <= i < |text| && text[i] != ' ' && i !in revealed ==> r[i] in characters
    ensures useOriginalCharsOnly ==> multiset(Hidden(r, revealed)) == multiset(Hidden(text, revealed))
    ensures !useOriginalCharsOnly && |characters| == 0 ==>
      r == Visible(text, revealed) && |r| == |text| - |Hidden(text, revealed)|
  {
    if useOriginalCharsOnly {
      r := ShuffleOriginal(text, revealed, rolls);
    } else {
      var pool := AvailableChars(false, text, characters);
      r := ShuffleRandom(text, revealed, pool, rolls);
      if |pool| > 0 {
        RandomShuffleShape(text, revealed, pool, rolls);
      } else {
        EmptyPoolKeepsVisible(text, revealed, rolls);
      }
    }
  }
}
