// The search for the start of a replay (file/w3g/header.go, FindHeader).

module HeaderSearch {
  import opened Peekers
  import opened Wire

  const WINDOW: nat := 2048

  /** "Warcraft III recorded game" and a control-Z. */
  const SIGNATURE: Bytes := [
    0x57, 0x61, 0x72, 0x63, 0x72, 0x61, 0x66, 0x74, 0x20, 0x49, 0x49, 0x49, 0x20, 0x72, 0x65, 0x63, 0x6F, 0x72, 0x64,
    0x65, 0x64, 0x20, 0x67, 0x61, 0x6D, 0x65, 0x1A]

  predicate OccursAt(s: Bytes, sig: Bytes, i: nat) {
    i + |sig| <= |s| && s[i..i + |sig|] == sig
  }

  /** The signature is found at offset n and nowhere before. */
  ghost predicate FirstAt(s: Bytes, sig: Bytes, n: nat) {
    OccursAt(s, sig, n) && forall i: nat | i < n :: !OccursAt(s, sig, i)
  }

  /** bytes.Index, from offset i on; -1 for no occurrence. */
  function IndexFrom(b: Bytes, sig: Bytes, i: nat): (idx: int)
    ensures idx >= 0 ==> OccursAt(b, sig, idx) && i <= idx
    ensures idx < 0 ==> idx == -1
    ensures forall k: nat | i <= k && (idx < 0 || k < idx) :: !OccursAt(b, sig, k)
    decreases |b| - i
  {
    if i + |sig| > |b| then -1 else if b[i..i + |sig|] == sig then i else IndexFrom(b, sig, i + 1)
  }

  method Index(b: Bytes, sig: Bytes) returns (idx: int)
    ensures idx == IndexFrom(b, sig, 0)
  {
    idx := 0;
    while idx + |sig| <= |b|
      invariant 0 <= idx
      invariant IndexFrom(b, sig, 0) == IndexFrom(b, sig, idx)
      decreases |b| - idx
    {
      if b[idx..idx + |sig|] == sig {
        return;
      }
      idx := idx + 1;
    }
    idx := -1;
  }

  // ---- The search ---------------------------------------------------------

  const STEP: nat := WINDOW - |SIGNATURE| + 1

  /** Where a search ends: the bytes discarded, the error, and what is left. */
  datatype Found = Found(n: nat, err: Result, rest: Bytes)

  /** FindHeader from a reader that shows at most cap bytes, n bytes into the stream. */
  function Search(s: Bytes, cap: nat, n: nat): Found
    decreases |s|
  {
    var b := Shown(s, cap, WINDOW);
    var idx := IndexFrom(b, SIGNATURE, 0);
    if b == [] then Found(n, PeekErr(s, cap, WINDOW), s)
    else if idx >= 0 then Found(n + idx, OK, s[idx..])
    else if |s| < STEP then Found(n + |s|, Err(ErrEOF), [])
    else Search(s[STEP..], cap, n + STEP)
  }

  /** FindHeader ends on every stream, for every reader. */
  method FindHeader(r: Peeker) returns (n: nat, err: Result)
    modifies r
    ensures Found(n, err, r.rest) == Search(old(r.rest), r.cap, 0)
    ensures r.cap >= WINDOW ==> Finds(old(r.rest), Found(n, err, r.rest))
  {
    hide IndexFrom, OccursAt, Finds;
    n := 0;
    if r.cap >= WINDOW {
      SearchFinds(r.rest, r.cap);
    }
    while true
      invariant Search(old(r.rest), r.cap, 0) == Search(r.rest, r.cap, n)
      decreases |r.rest|
    {
      var b, e := r.Peek(WINDOW);
      if |b| == 0 {
        return n, e;
      }
      var idx := Index(b, SIGNATURE);
      IndexWithin(b, SIGNATURE);
      var del := if idx < 0 then STEP else idx;
      var nn, e2 := r.Discard(del);
      n := n + nn;
      if idx >= 0 || e2 != OK {
        return n, e2;
      }
    }
  }

  lemma IndexWithin(b: Bytes, sig: Bytes)
    ensures -1 <= IndexFrom(b, sig, 0) <= |b|
  {
  }

  // ---- What it finds ------------------------------------------------------

  /**
   * The search succeeds exactly when the signature occurs, and then stands at its first occurrence, having counted the
   * bytes before it; otherwise it has used up the stream and answers EOF.
   */
  ghost predicate Finds(s: Bytes, f: Found) {
    && (f.err == OK <==> exists i: nat :: OccursAt(s, SIGNATURE, i))
    && (f.err == OK ==> FirstAt(s, SIGNATURE, f.n) && f.rest == s[f.n..])
    && (f.err != OK ==> f.err == Err(ErrEOF) && f.n == |s| && f.rest == [])
  }

  /** An occurrence in what is left, seen from the start of the stream. */
  lemma Shifted(s: Bytes, sig: Bytes, n: nat, i: nat)
    requires n <= |s|
    ensures OccursAt(s[n..], sig, i) <==> OccursAt(s, sig, n + i)
  {
    if n + i + |sig| <= |s| {
      assert s[n..][i..i + |sig|] == s[n + i..n + i + |sig|];
    }
  }

  /** An occurrence in a window onto the front of s. */
  lemma Windowed(s: Bytes, sig: Bytes, w: nat, i: nat)
    requires w <= |s|
    ensures OccursAt(s[..w], sig, i) <==> i + |sig| <= w && OccursAt(s, sig, i)
  {
    if i + |sig| <= w {
      assert s[..w][i..i + |sig|] == s[i..i + |sig|];
    }
  }

  /**
   * A window without the signature lets the search step over all but its last |sig| - 1 bytes: none of the offsets
   * stepped over starts an occurrence, not even one that straddles the end of the window.
   */
  lemma StepOver(s: Bytes, sig: Bytes, w: nat)
    requires 0 < |sig| <= w && IndexFrom(s[..Min(w, |s|)], sig, 0) < 0
    ensures forall i: nat | i < w - |sig| + 1 :: !OccursAt(s, sig, i)
  {
    forall i: nat | i < w - |sig| + 1
      ensures !OccursAt(s, sig, i)
    {
      Windowed(s, sig, Min(w, |s|), i);
    }
  }

  /** The first occurrence in the window is the first one of the stream. */
  lemma FirstInWindow(s: Bytes, sig: Bytes, w: nat)
    requires w <= |s| && IndexFrom(s[..w], sig, 0) >= 0
    ensures FirstAt(s, sig, IndexFrom(s[..w], sig, 0))
  {
    var idx := IndexFrom(s[..w], sig, 0);
    forall i: nat | i <= idx
      ensures OccursAt(s, sig, i) <==> i == idx
    {
      Windowed(s, sig, w, i);
    }
  }

  /** A stream is searched like what is left of it after a step. */
  lemma FindsBehind(s: Bytes, step: nat, f: Found)
    requires step <= |s| && Finds(s[step..], f)
    requires forall i: nat | i < step :: !OccursAt(s, SIGNATURE, i)
    ensures Finds(s, f.(n := step + f.n))
  {
    hide OccursAt;
    forall i: nat
      ensures OccursAt(s[step..], SIGNATURE, i) <==> OccursAt(s, SIGNATURE, step + i)
    {
      Shifted(s, SIGNATURE, step, i);
    }
    if f.err == OK {
      forall i: nat | i < step + f.n
        ensures !OccursAt(s, SIGNATURE, i)
      {
        assert i >= step ==> !OccursAt(s[step..], SIGNATURE, i - step);
      }
      OccursWithin(s[step..], SIGNATURE);
      assert s[step..][f.n..] == s[step + f.n..];
    } else {
      forall i: nat
        ensures !OccursAt(s, SIGNATURE, i)
      {
        assert i >= step ==> !OccursAt(s[step..], SIGNATURE, i - step);
      }
    }
  }

  lemma {:induction false} CountFrom(s: Bytes, cap: nat, n: nat)
    ensures Search(s, cap, n) == Search(s, cap, 0).(n := n + Search(s, cap, 0).n)
    decreases |s|
  {
    hide IndexFrom;
    var b := Shown(s, cap, WINDOW);
    if b != [] && IndexFrom(b, SIGNATURE, 0) < 0 && |s| >= STEP {
      CountFrom(s[STEP..], cap, n + STEP);
      CountFrom(s[STEP..], cap, STEP);
    }
  }

  /** A reader that shows a whole window steps over no signature. */
  lemma {:induction false} SearchFinds(s: Bytes, cap: nat)
    requires cap >= WINDOW
    ensures Finds(s, Search(s, cap, 0))
    decreases |s|
  {
    hide IndexFrom, OccursAt;
    var b := Shown(s, cap, WINDOW);
    assert b == s[..Min(WINDOW, |s|)];
    OccursWithin(s, SIGNATURE);
    if b == [] {
      assert s == [];
    } else if IndexFrom(b, SIGNATURE, 0) >= 0 {
      FirstInWindow(s, SIGNATURE, |b|);
    } else {
      StepOver(s, SIGNATURE, WINDOW);
      if |s| >= STEP {
        SearchFinds(s[STEP..], cap);
        CountFrom(s[STEP..], cap, STEP);
        FindsBehind(s, STEP, Search(s[STEP..], cap, 0));
      }
    }
  }

  lemma OccursWithin(s: Bytes, sig: Bytes)
    requires sig != []
    ensures forall i: nat :: OccursAt(s, sig, i) ==> i < |s|
  {
  }

  // ---- Readers that show less ---------------------------------------------

  /** A signature that starts behind the last place at which a window of cap bytes shows it whole. */
  function Hidden(cap: nat): Bytes {
    Zeros(if cap < 26 then 0 else cap - 26) + SIGNATURE
  }

  lemma HiddenOccurs(cap: nat)
    ensures OccursAt(Hidden(cap), SIGNATURE, |Hidden(cap)| - |SIGNATURE|)
  {
  }

  lemma NotShown(cap: nat)
    ensures IndexFrom(Shown(Hidden(cap), cap, WINDOW), SIGNATURE, 0) < 0
  {
    var s := Hidden(cap);
    var b := Shown(s, cap, WINDOW);
    forall i: nat
      ensures !OccursAt(b, SIGNATURE, i)
    {
      if i + |SIGNATURE| <= |b| {
        assert b[i] == s[i] == 0;
        assert b[i..i + |SIGNATURE|][0] == 0 != SIGNATURE[0];
      }
    }
  }

  lemma TooShort(s: Bytes, cap: nat, n: nat)
    requires |s| < |SIGNATURE|
    ensures Search(s, cap, n).err != OK
  {
    assert IndexFrom(Shown(s, cap, WINDOW), SIGNATURE, 0) < 0;
  }

  /** For every smaller reader there is a stream whose signature is stepped over. */
  lemma SmallReaderMisses(cap: nat)
    requires cap < WINDOW
    ensures Search(Hidden(cap), cap, 0).err != OK && !Finds(Hidden(cap), Search(Hidden(cap), cap, 0))
  {
    hide IndexFrom, OccursAt;
    var s := Hidden(cap);
    HiddenOccurs(cap);
    NotShown(cap);
    if cap > 0 && |s| >= STEP {
      TooShort(s[STEP..], cap, STEP);
    }
  }

  /** The search finds every signature if and only if the reader can show the window it asks for. */
  lemma FindsAllIff(cap: nat)
    ensures (forall s: Bytes :: Finds(s, Search(s, cap, 0))) <==> cap >= 2048
  {
    if cap >= WINDOW {
      forall s: Bytes
        ensures Finds(s, Search(s, cap, 0))
      {
        SearchFinds(s, cap);
      }
    } else {
      SmallReaderMisses(cap);
    }
  }
}
