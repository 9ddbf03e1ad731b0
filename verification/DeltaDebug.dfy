/** Shrinking a failing input: line windows of halving width, then trailing characters. */
module DeltaDebug {
  import opened TextLines

  // ----- Subsequences -------------------------------------------------------------------

  predicate Sub<T(==)>(a: seq<T>, b: seq<T>) {
    if a == [] then true
    else if b == [] then false
    else (a[0] == b[0] && Sub(a[1..], b[1..])) || Sub(a, b[1..])
  }

  lemma {:induction false} SubReflexive<T>(a: seq<T>)
    ensures Sub(a, a)
  {
    if a != [] { SubReflexive(a[1..]); }
  }

  lemma {:induction false} SubTail<T>(a: seq<T>, b: seq<T>)
    requires a != [] && Sub(a, b)
    ensures Sub(a[1..], b)
    decreases |b|
  {
    if a[0] == b[0] && Sub(a[1..], b[1..]) {
    } else {
      SubTail(a, b[1..]);
    }
  }

  lemma {:induction false} SubTransitive<T>(a: seq<T>, b: seq<T>, c: seq<T>)
    requires Sub(a, b) && Sub(b, c)
    ensures Sub(a, c)
    decreases |c|
  {
    if a != [] {
      if b[0] == c[0] && Sub(b[1..], c[1..]) {
        if a[0] == b[0] && Sub(a[1..], b[1..]) {
          SubTransitive(a[1..], b[1..], c[1..]);
        } else {
          SubTransitive(a, b[1..], c[1..]);
        }
      } else {
        SubTransitive(a, b, c[1..]);
      }
    }
  }

  lemma {:induction false} SubLength<T>(a: seq<T>, b: seq<T>)
    requires Sub(a, b)
    ensures |a| <= |b| && (|a| == |b| ==> a == b)
    decreases |b|
  {
    if a != [] {
      if a[0] == b[0] && Sub(a[1..], b[1..]) {
        SubLength(a[1..], b[1..]);
        assert a == [a[0]] + a[1..] && b == [b[0]] + b[1..];
      } else {
        SubLength(a, b[1..]);
      }
    }
  }

  /** Python's `s[:i] + s[i + k:]`, where the second slice may start past the end. */
  function Cut<T>(s: seq<T>, i: nat, k: nat): seq<T>
    requires i <= |s|
  {
    s[..i] + if i + k <= |s| then s[i + k..] else []
  }

  lemma {:induction false} CutIsSub<T>(s: seq<T>, i: nat, k: nat)
    requires i <= |s|
    ensures Sub(Cut(s, i, k), s)
  {
    if s == [] {
    } else if i > 0 {
      assert Cut(s, i, k) == [s[0]] + Cut(s[1..], i - 1, k);
      CutIsSub(s[1..], i - 1, k);
    } else if k == 0 {
      assert Cut(s, i, k) == s;
      SubReflexive(s);
    } else {
      assert Cut(s, 0, k) == Cut(s[1..], 0, k - 1);
      CutIsSub(s[1..], 0, k - 1);
    }
  }

  /** A proper subsequence misses some element, so it survives the removal of that one. */
  lemma {:induction false} ProperSubMisses<T>(a: seq<T>, s: seq<T>) returns (i: nat)
    requires Sub(a, s) && a != s
    ensures i < |s| && Sub(a, Cut(s, i, 1))
    decreases |s|
  {
    if a == [] {
      i := 0;
    } else if a[0] == s[0] && Sub(a[1..], s[1..]) {
      assert a == [a[0]] + a[1..] && s == [s[0]] + s[1..];
      var j := ProperSubMisses(a[1..], s[1..]);
      i := j + 1;
      assert Cut(s, i, 1) == [s[0]] + Cut(s[1..], j, 1);
    } else {
      i := 0;
      assert Cut(s, 0, 1) == s[1..];
    }
  }

  /** One evaluation of the failure predicate. */
  predicate Fails(fails: string -> bool, text: string) { fails(text) }

  // ----- The line phase -----------------------------------------------------------------

  /** No single line can be removed. */
  predicate OneMinimal(lines: seq<string>, fails: string -> bool) {
    forall i :: 0 <= i < |lines| ==> !Fails(fails, Concat(Cut(lines, i, 1)))
  }

  /** Failure of a document carries over to every document that contains its lines in order. */
  ghost predicate UpwardClosed(fails: string -> bool) {
    forall a, b :: Sub(a, b) && Fails(fails, Concat(a)) ==> Fails(fails, Concat(b))
  }

  /** For an upward-closed failure, one-minimal is globally minimal. */
  lemma OneMinimalIsMinimal(lines: seq<string>, fails: string -> bool, a: seq<string>)
    requires OneMinimal(lines, fails) && UpwardClosed(fails)
    requires Sub(a, lines) && a != lines
    ensures !Fails(fails, Concat(a))
  {
    var i := ProperSubMisses(a, lines);
    assert !Fails(fails, Concat(Cut(lines, i, 1)));
  }

  /** Removing any of the windows that start before `end` makes the failure disappear. */
  predicate NoneFailsBefore(lines: seq<string>, fails: string -> bool, chunk: nat, end: nat)
    requires chunk >= 1
  {
    forall i :: 0 <= i < |lines| && i % chunk == 0 && i < end ==> !Fails(fails, Concat(Cut(lines, i, chunk)))
  }

  /** No window of `width` lines can be removed. */
  predicate NoWindowFails(lines: seq<string>, fails: string -> bool, width: nat)
    requires width >= 1
  {
    forall i :: 0 <= i < |lines| && i % width == 0 ==> !Fails(fails, Concat(Cut(lines, i, width)))
  }

  // ----- One pass, read off the windows of the document it starts on ----------------------

  function Window(lines: seq<string>, chunk: nat): seq<string> {
    if chunk <= |lines| then lines[..chunk] else lines
  }

  /** What stands behind the first `m` windows. */
  function Behind(lines: seq<string>, chunk: nat, m: nat): seq<string> {
    if m == 0 then lines
    else
      var rest := Behind(lines, chunk, m - 1);
      rest[|Window(rest, chunk)|..]
  }

  /** The windows that have been decided on, without those that were dropped. */
  function KeptWindows(lines: seq<string>, chunk: nat, drops: seq<bool>): seq<string> {
    if drops == [] then []
    else
      var m := |drops| - 1;
      KeptWindows(lines, chunk, drops[..m]) + if drops[m] then [] else Window(Behind(lines, chunk, m), chunk)
  }

  /** The document with the dropped windows left out and the undecided ones in place. */
  function Without(lines: seq<string>, chunk: nat, drops: seq<bool>): seq<string> {
    KeptWindows(lines, chunk, drops) + Behind(lines, chunk, |drops|)
  }

  /** A window is dropped exactly if the document fails without it and without those dropped
      before it. */
  predicate DropsWhatFails(lines: seq<string>, fails: string -> bool, chunk: nat, drops: seq<bool>) {
    forall k :: 0 <= k < |drops| ==> (drops[k] <==> Fails(fails, Concat(Without(lines, chunk, drops[..k] + [true]))))
  }

  function Windows(n: nat, chunk: nat): nat
    requires chunk >= 1
  {
    if n == 0 then 0 else if n <= chunk then 1 else 1 + Windows(n - chunk, chunk)
  }

  lemma KeepWindow(front: seq<string>, rest: seq<string>, chunk: nat)
    ensures front + Window(rest, chunk) + rest[|Window(rest, chunk)|..] == front + rest
  {
    assert rest == Window(rest, chunk) + rest[|Window(rest, chunk)|..];
  }

  lemma CutWindow(front: seq<string>, rest: seq<string>, chunk: nat)
    ensures Cut(front + rest, |front|, chunk) == front + rest[|Window(rest, chunk)|..]
  {
    assert (front + rest)[..|front|] == front;
    if chunk <= |rest| { assert (front + rest)[|front| + chunk..] == rest[chunk..]; }
  }

  /** What one more decision leaves, in terms of the windows kept so far and the rest. */
  lemma WithoutOneMore(lines: seq<string>, chunk: nat, drops: seq<bool>, front: seq<string>, rest: seq<string>)
    requires front == KeptWindows(lines, chunk, drops) && rest == Behind(lines, chunk, |drops|)
    ensures Behind(lines, chunk, |drops| + 1) == rest[|Window(rest, chunk)|..]
    ensures KeptWindows(lines, chunk, drops + [true]) == front
    ensures KeptWindows(lines, chunk, drops + [false]) == front + Window(rest, chunk)
    ensures Without(lines, chunk, drops + [true]) == Cut(front + rest, |front|, chunk)
    ensures Without(lines, chunk, drops + [false]) == front + rest
  {
    assert (drops + [true])[..|drops|] == drops && (drops + [false])[..|drops|] == drops;
    assert front + [] == front;
    KeepWindow(front, rest, chunk);
    CutWindow(front, rest, chunk);
  }

  lemma DecidedMore(lines: seq<string>, fails: string -> bool, chunk: nat, drops: seq<bool>, d: bool)
    requires DropsWhatFails(lines, fails, chunk, drops)
    requires d <==> Fails(fails, Concat(Without(lines, chunk, drops + [true])))
    ensures DropsWhatFails(lines, fails, chunk, drops + [d])
  {
    forall k | 0 <= k < |drops| ensures (drops + [d])[..k] == drops[..k] {}
    assert (drops + [d])[..|drops|] == drops;
  }

  /** Where the loop stands with `front` kept and `rest` undecided. */
  ghost predicate Position(front: seq<string>, rest: seq<string>, kept: seq<string>, index: nat) {
    kept == front + rest && if |rest| == 0 then index >= |kept| else index == |front|
  }

  ghost predicate Swept(lines: seq<string>, chunk: nat, drops: seq<bool>, kept: seq<string>, index: nat)
    requires chunk >= 1
  {
    && Position(KeptWindows(lines, chunk, drops), Behind(lines, chunk, |drops|), kept, index)
    && |drops| + Windows(|Behind(lines, chunk, |drops|)|, chunk) == Windows(|lines|, chunk)
  }

  lemma SweptStart(lines: seq<string>, chunk: nat)
    requires chunk >= 1
    ensures Swept(lines, chunk, [], lines, 0)
  {
    assert [] + lines == lines;
  }

  lemma SweptMore(lines: seq<string>, chunk: nat, drops: seq<bool>, kept: seq<string>, index: nat)
    requires chunk >= 1 && Swept(lines, chunk, drops, kept, index) && index < |kept|
    ensures Swept(lines, chunk, drops + [true], Cut(kept, index, chunk), index)
    ensures Swept(lines, chunk, drops + [false], kept, index + chunk)
    ensures Without(lines, chunk, drops + [true]) == Cut(kept, index, chunk)
  {
    var front, rest := KeptWindows(lines, chunk, drops), Behind(lines, chunk, |drops|);
    WithoutOneMore(lines, chunk, drops, front, rest);
    PositionMore(front, rest, kept, index, chunk);
  }

  lemma PositionMore(front: seq<string>, rest: seq<string>, kept: seq<string>, index: nat, chunk: nat)
    requires chunk >= 1 && Position(front, rest, kept, index) && index < |kept|
    ensures var behind := rest[|Window(rest, chunk)|..];
      && Position(front, behind, Cut(kept, index, chunk), index)
      && Position(front + Window(rest, chunk), behind, kept, index + chunk)
      && Windows(|rest|, chunk) == 1 + Windows(|behind|, chunk)
  {
    KeepWindow(front, rest, chunk);
    CutWindow(front, rest, chunk);
  }

  /** The decisions on the first `m` windows of the document are made, and this is what they leave. */
  ghost predicate PassedOver(lines: seq<string>, fails: string -> bool, chunk: nat, m: nat, kept: seq<string>) {
    exists drops :: |drops| == m && DropsWhatFails(lines, fails, chunk, drops) && kept == Without(lines, chunk, drops)
  }

  /** The loop can stand like this after `m` evaluations. */
  ghost predicate Stands(lines: seq<string>, fails: string -> bool, chunk: nat, m: nat, kept: seq<string>, index: nat) {
    if m == 0 then kept == lines && index == 0
    else exists last: seq<string>, at: nat ::
      Stands(lines, fails, chunk, m - 1, last, at) && Tries(fails, chunk, last, at, kept, index)
  }

  ghost predicate Tries(fails: string -> bool, chunk: nat, last: seq<string>, at: nat, kept: seq<string>, index: nat) {
    at < |last| &&
    if Fails(fails, Concat(Cut(last, at, chunk))) then kept == Cut(last, at, chunk) && index == at
    else kept == last && index == at + chunk
  }

  lemma StandsMore(lines: seq<string>, fails: string -> bool, chunk: nat, m: nat, last: seq<string>, at: nat,
                   kept: seq<string>, index: nat)
    requires Stands(lines, fails, chunk, m, last, at) && Tries(fails, chunk, last, at, kept, index)
    ensures Stands(lines, fails, chunk, m + 1, kept, index)
  {
  }

  /** The run has decided on one window after the other. */
  lemma {:induction false} StandsSwept(lines: seq<string>, fails: string -> bool, chunk: nat, m: nat,
                                       kept: seq<string>, index: nat)
    returns (drops: seq<bool>)
    requires chunk >= 1 && Stands(lines, fails, chunk, m, kept, index)
    ensures |drops| == m && DropsWhatFails(lines, fails, chunk, drops) && Swept(lines, chunk, drops, kept, index)
  {
    if m == 0 {
      drops := [];
      SweptStart(lines, chunk);
    } else {
      var last: seq<string>, at: nat :|
        Stands(lines, fails, chunk, m - 1, last, at) && Tries(fails, chunk, last, at, kept, index);
      var most := StandsSwept(lines, fails, chunk, m - 1, last, at);
      SweptMore(lines, chunk, most, last, at);
      var gone := Fails(fails, Concat(Cut(last, at, chunk)));
      DecidedMore(lines, fails, chunk, most, gone);
      drops := most + [gone];
    }
  }

  lemma SweptEnd(lines: seq<string>, fails: string -> bool, chunk: nat, m: nat, kept: seq<string>, index: nat)
    requires chunk >= 1 && Stands(lines, fails, chunk, m, kept, index)
    ensures PassedOver(lines, fails, chunk, m, kept) && Sub(kept, lines)
    ensures if index < |kept| then m < Windows(|lines|, chunk) else m == Windows(|lines|, chunk)
  {
    var drops := StandsSwept(lines, fails, chunk, m, kept, index);
    assert kept == Without(lines, chunk, drops);
    WithoutIsSub(lines, chunk, drops);
  }

  lemma {:induction false} WithoutIsSub(lines: seq<string>, chunk: nat, drops: seq<bool>)
    ensures Sub(Without(lines, chunk, drops), lines)
  {
    if drops == [] {
      assert [] + lines == lines;
      SubReflexive(lines);
    } else {
      var most := drops[..|drops| - 1];
      assert drops == most + [drops[|drops| - 1]];
      WithoutIsSub(lines, chunk, most);
      var front, rest := KeptWindows(lines, chunk, most), Behind(lines, chunk, |most|);
      WithoutOneMore(lines, chunk, most, front, rest);
      CutIsSub(front + rest, |front|, chunk);
      if drops[|most|] { SubTransitive(Cut(front + rest, |front|, chunk), front + rest, lines); }
    }
  }

  /** The next window to try starts at `index`, and no window before it can be removed. */
  predicate TriedTo(lines: seq<string>, fails: string -> bool, chunk: nat, index: nat)
    requires chunk >= 1
  {
    index % chunk == 0 && NoneFailsBefore(lines, fails, chunk, index)
  }

  lemma TriedMore(lines: seq<string>, fails: string -> bool, chunk: nat, index: nat)
    requires chunk >= 1 && TriedTo(lines, fails, chunk, index) && index < |lines|
    requires !Fails(fails, Concat(Cut(lines, index, chunk)))
    ensures TriedTo(lines, fails, chunk, index + chunk)
  {
    NextMultiple(index, chunk);
  }

  lemma TriedAll(lines: seq<string>, fails: string -> bool, chunk: nat, index: nat)
    requires chunk >= 1 && TriedTo(lines, fails, chunk, index) && index >= |lines|
    ensures NoWindowFails(lines, fails, chunk)
  {
  }

  /** One pass over the windows of `chunk` lines: each window of the document is tried once, in
      order and as far as the budget goes, and dropped exactly if the rest still fails.  If nothing
      was removed and budget is left, every window was tried on the unchanged lines. */
  method ShrinkPass(lines: seq<string>, fails: string -> bool, chunk: nat, budget: nat)
    returns (kept: seq<string>, removed: bool, used: nat)
    requires chunk >= 1
    ensures Sub(kept, lines)
    ensures Fails(fails, Concat(lines)) ==> Fails(fails, Concat(kept))
    ensures if removed then |kept| < |lines| && Fails(fails, Concat(kept)) else kept == lines
    ensures !removed && used < budget ==> NoWindowFails(lines, fails, chunk)
    ensures used == if Windows(|lines|, chunk) < budget then Windows(|lines|, chunk) else budget
    ensures PassedOver(lines, fails, chunk, used, kept)
  {
    kept := lines;
    var index := 0;
    removed, used := false, 0;
    while index < |kept| && used < budget
      invariant used <= budget
      invariant if removed then |kept| < |lines| && Fails(fails, Concat(kept)) else kept == lines
      invariant !removed ==> TriedTo(lines, fails, chunk, index)
      invariant Stands(lines, fails, chunk, used, kept, index)
      decreases |kept| - index
    {
      var candidate := Cut(kept, index, chunk);
      ghost var last, at := kept, index;
      if Fails(fails, Concat(candidate)) {
        kept, removed := candidate, true;
      } else {
        if !removed { TriedMore(lines, fails, chunk, index); }
        index := index + chunk;
      }
      StandsMore(lines, fails, chunk, used, last, at, kept, index);
      used := used + 1;
    }
    SweptEnd(lines, fails, chunk, used, kept, index);
    if !removed && used < budget { TriedAll(lines, fails, chunk, index); }
  }

  lemma MultipleGap(p: nat, q: nat, chunk: nat)
    requires p < q
    ensures p * chunk + chunk <= q * chunk
  {
    assert q * chunk == p * chunk + (q - p) * chunk;
    assert (q - p) * chunk == chunk + (q - p - 1) * chunk;
  }

  lemma RemainderOf(j: nat, chunk: nat, q: nat, r: nat)
    requires chunk >= 1 && r < chunk && j == q * chunk + r
    ensures j % chunk == r
  {
    var p, rest := j / chunk, j % chunk;
    assert j == p * chunk + rest;
    if p < q { MultipleGap(p, q, chunk); }
    if q < p { MultipleGap(q, p, chunk); }
  }

  lemma NextMultiple(i: nat, chunk: nat)
    requires chunk >= 1 && i % chunk == 0
    ensures (i + chunk) % chunk == 0
    ensures forall j :: i < j < i + chunk ==> j % chunk != 0
  {
    var q := i / chunk;
    assert i == q * chunk;
    assert (q + 1) * chunk == q * chunk + chunk;
    RemainderOf(i + chunk, chunk, q + 1, 0);
    forall j | i < j < i + chunk ensures j % chunk != 0 {
      RemainderOf(j, chunk, q, j - i);
    }
  }

  /** The widths a search starting with `start` goes through: `start`, its half, and so on. */
  predicate HalvedFrom(start: nat, width: nat): (r: bool)
    ensures r ==> width >= 1
  {
    start >= 1 && (width == start || HalvedFrom(start / 2, width))
  }

  /** From one document to another through all widths from `width` on: each width is left with a
      document that cannot lose any window of it. */
  ghost predicate Reduces(from: seq<string>, to: seq<string>, fails: string -> bool, width: nat)
    decreases width
  {
    if width == 0 then to == from
    else exists mid :: Sub(mid, from) && NoWindowFails(mid, fails, width) && Reduces(mid, to, fails, width / 2)
  }

  lemma ReducesEarlier(before: seq<string>, from: seq<string>, to: seq<string>, fails: string -> bool, width: nat)
    requires width >= 1 && Sub(from, before) && Reduces(from, to, fails, width)
    ensures Reduces(before, to, fails, width)
  {
    var mid :| Sub(mid, from) && NoWindowFails(mid, fails, width) && Reduces(mid, to, fails, width / 2);
    SubTransitive(mid, from, before);
  }

  lemma ReducesWider(from: seq<string>, to: seq<string>, fails: string -> bool, width: nat)
    requires width >= 1 && NoWindowFails(from, fails, width) && Reduces(from, to, fails, width / 2)
    ensures Reduces(from, to, fails, width)
  {
    SubReflexive(from);
  }

  lemma {:induction false} ReducesIsSub(from: seq<string>, to: seq<string>, fails: string -> bool, width: nat)
    requires Reduces(from, to, fails, width)
    ensures Sub(to, from)
    decreases width
  {
    if width == 0 {
      SubReflexive(to);
    } else {
      var mid :| Sub(mid, from) && NoWindowFails(mid, fails, width) && Reduces(mid, to, fails, width / 2);
      ReducesIsSub(mid, to, fails, width / 2);
      SubTransitive(to, mid, from);
    }
  }

  lemma {:induction false} ReducedIsOneMinimal(from: seq<string>, to: seq<string>, fails: string -> bool, width: nat)
    requires width >= 1 && Reduces(from, to, fails, width)
    ensures OneMinimal(to, fails)
    decreases width
  {
    var mid :| Sub(mid, from) && NoWindowFails(mid, fails, width) && Reduces(mid, to, fails, width / 2);
    if width > 1 {
      ReducedIsOneMinimal(mid, to, fails, width / 2);
    } else {
      assert forall i :: 0 <= i < |to| ==> i % width == 0;
    }
  }

  lemma SubBothWays(a: seq<string>, b: seq<string>)
    requires Sub(a, b) && Sub(b, a)
    ensures a == b
  {
    SubLength(a, b);
    SubLength(b, a);
  }

  /** A document that comes out unchanged cannot lose a window of any width. */
  lemma {:induction false} UnchangedHolds(lines: seq<string>, fails: string -> bool, start: nat, width: nat)
    requires Reduces(lines, lines, fails, start) && HalvedFrom(start, width)
    ensures NoWindowFails(lines, fails, width)
  {
    var mid :| Sub(mid, lines) && NoWindowFails(mid, fails, start) && Reduces(mid, lines, fails, start / 2);
    ReducesIsSub(mid, lines, fails, start / 2);
    SubBothWays(mid, lines);
    if width != start { UnchangedHolds(lines, fails, start / 2, width); }
  }

  /** The windows of all widths from `width` on. */
  function AllWindows(n: nat, width: nat): nat {
    if width == 0 then 0 else Windows(n, width) + AllWindows(n, width / 2)
  }

  /** The reduced document still fails if the original did, keeps lines of the original in
      order and costs at most `maxRounds` evaluations.  If it cost less, it is one-minimal, the search
      went through all widths from half the lines down to one, and a document it leaves as it is
      cannot lose a window of any of these widths, each of which was tried once. */
  method ShrinkLines(text: string, fails: string -> bool, maxRounds: int)
    returns (result: string, lines: seq<string>, rounds: nat)
    ensures result == Concat(lines) && Sub(lines, KeepLines(text))
    ensures Fails(fails, text) ==> Fails(fails, result)
    ensures rounds <= if maxRounds < 0 then 0 else maxRounds
    ensures rounds < maxRounds ==> OneMinimal(lines, fails)
    ensures maxRounds <= 0 ==> result == text
    ensures var n := |KeepLines(text)|;
      rounds < maxRounds ==> Reduces(KeepLines(text), lines, fails, if n < 2 then 1 else n / 2)
    ensures var n := |lines|;
      rounds < maxRounds && lines == KeepLines(text) ==>
        && rounds == AllWindows(n, if n < 2 then 1 else n / 2)
        && forall w: nat, i: nat :: HalvedFrom(if n < 2 then 1 else n / 2, w) && i < n && i % w == 0 ==>
             !Fails(fails, Concat(Cut(lines, i, w)))
  {
    KeepLinesRoundTrip(text);
    lines := KeepLines(text);
    SubReflexive(lines);
    var chunk: nat := if |lines| / 2 < 1 then 1 else |lines| / 2;
    ghost var all, start := lines, chunk;
    rounds := 0;
    while chunk >= 1 && rounds < maxRounds
      invariant Sub(lines, all)
      invariant Fails(fails, text) ==> Fails(fails, Concat(lines))
      invariant rounds <= if maxRounds < 0 then 0 else maxRounds
      invariant maxRounds <= 0 ==> Concat(lines) == text
      invariant rounds < maxRounds ==> LeadsTo(all, lines, fails, start, chunk)
      invariant rounds < maxRounds && lines == all ==> rounds + AllWindows(|all|, chunk) == AllWindows(|all|, start)
      decreases |lines|, chunk
    {
      var kept, removed, used := ShrinkPass(lines, fails, chunk, maxRounds - rounds);
      SubTransitive(kept, lines, all);
      SubLength(lines, all);
      if used < maxRounds - rounds {
        LeadsOn(all, lines, kept, fails, start, chunk, removed);
      }
      lines := kept;
      rounds := rounds + used;
      if !removed { chunk := chunk / 2; }
    }
    result := Concat(lines);
    if rounds < maxRounds { LeadsEnd(all, lines, fails, start); }
  }

  /** Whatever `lines` reduces to from `chunk` on, `all` reduces to from `start` on. */
  ghost predicate LeadsTo(all: seq<string>, lines: seq<string>, fails: string -> bool, start: nat, chunk: nat) {
    forall to :: Reduces(lines, to, fails, chunk) ==> Reduces(all, to, fails, start)
  }

  lemma LeadsOn(all: seq<string>, lines: seq<string>, kept: seq<string>, fails: string -> bool, start: nat, chunk: nat,
                removed: bool)
    requires chunk >= 1 && LeadsTo(all, lines, fails, start, chunk)
    requires if removed then Sub(kept, lines) else kept == lines && NoWindowFails(lines, fails, chunk)
    ensures LeadsTo(all, kept, fails, start, if removed then chunk else chunk / 2)
  {
    forall to | Reduces(kept, to, fails, if removed then chunk else chunk / 2)
      ensures Reduces(all, to, fails, start)
    {
      if removed { ReducesEarlier(lines, kept, to, fails, chunk); } else { ReducesWider(lines, to, fails, chunk); }
    }
  }

  lemma LeadsEnd(all: seq<string>, lines: seq<string>, fails: string -> bool, start: nat)
    requires start >= 1 && LeadsTo(all, lines, fails, start, 0)
    ensures Reduces(all, lines, fails, start) && OneMinimal(lines, fails)
    ensures lines == all ==> forall w: nat, i: nat :: HalvedFrom(start, w) && i < |lines| && i % w == 0 ==>
      !Fails(fails, Concat(Cut(lines, i, w)))
  {
    assert Reduces(lines, lines, fails, 0);
    ReducedIsOneMinimal(all, lines, fails, start);
    forall w: nat, i: nat | lines == all && HalvedFrom(start, w) && i < |lines| && i % w == 0
      ensures !Fails(fails, Concat(Cut(lines, i, w)))
    {
      UnchangedHolds(lines, fails, start, w);
    }
  }

  // ----- The tail phase -----------------------------------------------------------------

  /** Failure of a prefix carries over to every longer prefix. */
  ghost predicate PrefixMonotone(text: string, fails: string -> bool) {
    forall i, j :: 0 <= i <= j <= |text| && Fails(fails, text[..i]) ==> Fails(fails, text[..j])
  }

  ghost predicate ShortestFailing(text: string, fails: string -> bool, n: nat) {
    n <= |text| && Fails(fails, text[..n]) && forall i :: 0 <= i < n ==> !Fails(fails, text[..i])
  }

  /** How many times a step can be halved before it reaches zero. */
  function Levels(step: nat): nat {
    if step == 0 then 0 else 1 + Levels(step / 2)
  }

  function FirstStep(text: string): (step: nat)
    ensures step >= 1 && (text != "" ==> step <= |text|)
  {
    if |text| / 2 < 1 then 1 else |text| / 2
  }

  /** One halving level: `step` characters at a time while the input still fails.  `least` is
      the length of the shortest failing prefix, when failure is monotone. */
  method ShrinkLevel(text: string, fails: string -> bool, step: nat, ghost original: string, ghost least: nat)
    returns (result: string, evals: nat)
    requires step >= 1 && text <= original
    ensures result <= text
    ensures Fails(fails, text) ==> Fails(fails, result)
    ensures |result| >= step ==> !Fails(fails, result[..|result| - step])
    ensures evals == 0 <==> |text| < step
    ensures evals <= |text| - |result| + 1
    ensures PrefixMonotone(original, fails) && ShortestFailing(original, fails, least)
         && least <= |text| && (|text| <= least + 2 * step || |text| <= 2 * step + 1)
         ==> least <= |result| <= least + step - 1 && evals <= 3
  {
    result, evals := text, 0;
    ghost var cuts := 0;
    while |result| >= step
      invariant result <= text && evals == cuts && (cuts == 0 ==> result == text)
      invariant Fails(fails, text) ==> Fails(fails, result)
      invariant cuts == 0 ==> |text| - |result| == 0
      invariant cuts == 1 ==> |text| - |result| == step
      invariant cuts == 2 ==> |text| - |result| == 2 * step
      invariant cuts >= 3 ==> |text| - |result| >= 3 * step
      invariant PrefixMonotone(original, fails) && ShortestFailing(original, fails, least) && least <= |text|
          ==> least <= |result|
      invariant cuts <= |text| - |result|
      decreases |result|
    {
      var candidate := result[..|result| - step];
      evals := evals + 1;
      assert candidate == original[..|candidate|] && result == original[..|result|];
      if !Fails(fails, candidate) { break; }
      result := candidate;
      cuts := cuts + 1;
    }
  }

  /** From the first `from` characters to the first `to`, through all steps from `step` on: each step is
      left with a prefix that is shorter than the step or cannot lose it. */
  ghost predicate Trims(text: string, fails: string -> bool, from: nat, to: nat, step: nat)
    requires from <= |text|
    decreases step
  {
    if step == 0 then to == from
    else exists mid: nat :: mid <= from && HoldsAt(text, fails, mid, step) && Trims(text, fails, mid, to, step / 2)
  }

  predicate HoldsAt(text: string, fails: string -> bool, n: nat, step: nat)
    requires n <= |text|
  {
    n >= step ==> !Fails(fails, text[..n - step])
  }

  ghost predicate TrimsTo(text: string, fails: string -> bool, n: nat, start: nat, step: nat)
    requires n <= |text|
  {
    forall to: nat :: Trims(text, fails, n, to, step) ==> Trims(text, fails, |text|, to, start)
  }

  lemma TrimsOn(text: string, fails: string -> bool, n: nat, m: nat, start: nat, step: nat)
    requires m <= n <= |text| && step >= 1 && HoldsAt(text, fails, m, step) && TrimsTo(text, fails, n, start, step)
    ensures TrimsTo(text, fails, m, start, step / 2)
  {
    forall to: nat | Trims(text, fails, m, to, step / 2) ensures Trims(text, fails, |text|, to, start) {
      assert Trims(text, fails, n, to, step);
    }
  }

  lemma {:induction false} TrimsDown(text: string, fails: string -> bool, from: nat, to: nat, step: nat)
    requires from <= |text| && Trims(text, fails, from, to, step)
    ensures to <= from
    decreases step
  {
    if step != 0 {
      var mid: nat :| mid <= from && HoldsAt(text, fails, mid, step) && Trims(text, fails, mid, to, step / 2);
      TrimsDown(text, fails, mid, to, step / 2);
    }
  }

  /** A text that comes out unchanged can lose none of the steps. */
  lemma {:induction false} UntrimmedHolds(text: string, fails: string -> bool, start: nat, step: nat)
    requires Trims(text, fails, |text|, |text|, start) && HalvedFrom(start, step)
    ensures HoldsAt(text, fails, |text|, step)
  {
    var n := |text|;
    var mid: nat :| mid <= n && HoldsAt(text, fails, mid, start) && Trims(text, fails, mid, n, start / 2);
    TrimsDown(text, fails, mid, n, start / 2);
    if step != start { UntrimmedHolds(text, fails, start / 2, step); }
  }

  /** The result is a failing prefix that is empty or cannot lose its last character, reached through
      all steps from half the text down to one; a text left as it is can lose none of these steps.  For
      a monotone failure it is the shortest failing prefix, at three evaluations a level. */
  method ShrinkTail(text: string, fails: string -> bool) returns (result: string, evals: nat)
    ensures result <= text
    ensures Fails(fails, text) ==> Fails(fails, result)
    ensures result == "" || !Fails(fails, result[..|result| - 1])
    ensures PrefixMonotone(text, fails) && Fails(fails, text) ==>
      && ShortestFailing(text, fails, |result|)
      && evals <= 3 * Levels(FirstStep(text))
    ensures evals == 0 <==> text == ""
    ensures evals <= |text| - |result| + Levels(FirstStep(text))
    ensures Trims(text, fails, |text|, |result|, if |text| < 2 then 1 else |text| / 2)
    ensures result == text ==>
      forall s: nat :: HalvedFrom(if |text| < 2 then 1 else |text| / 2, s) ==> HoldsAt(text, fails, |text|, s)
  {
    result, evals := text, 0;
    var step: nat := FirstStep(text);
    assert text[..|text|] == text;
    ghost var start := step;
    ghost var least := if Fails(fails, text) then LeastFailing(text, fails, |text|) else 0;
    while step >= 1
      invariant result <= text
      invariant Fails(fails, text) ==> Fails(fails, result)
      invariant step == 0 ==> result == "" || !Fails(fails, result[..|result| - 1])
      invariant evals == 0 ==> result == text && (text != "" ==> 1 <= step <= |text|)
      invariant text == "" ==> evals == 0
      invariant evals + Levels(step) <= |text| - |result| + Levels(start)
      invariant TrimsTo(text, fails, |result|, start, step)
      invariant PrefixMonotone(text, fails) && Fails(fails, text) ==>
        && ShortestFailing(text, fails, least)
        && least <= |result|
        && (|result| <= least + 2 * step || (step >= 1 && |result| <= 2 * step + 1))
        && evals + 3 * Levels(step) <= 3 * Levels(start)
      decreases step
    {
      var next, used := ShrinkLevel(result, fails, step, text, least);
      PrefixHolds(text, next, fails, step);
      TrimsOn(text, fails, |result|, |next|, start, step);
      result := next;
      evals := evals + used;
      step := step / 2;
    }
    TrimsEnd(text, fails, |result|, start);
  }

  lemma TrimsEnd(text: string, fails: string -> bool, n: nat, start: nat)
    requires n <= |text| && TrimsTo(text, fails, n, start, 0)
    ensures Trims(text, fails, |text|, n, start)
    ensures n == |text| ==> forall s: nat :: HalvedFrom(start, s) ==> HoldsAt(text, fails, n, s)
  {
    assert Trims(text, fails, n, n, 0);
    forall s: nat | n == |text| && HalvedFrom(start, s) ensures HoldsAt(text, fails, n, s) {
      UntrimmedHolds(text, fails, start, s);
    }
  }

  lemma PrefixHolds(text: string, prefix: string, fails: string -> bool, step: nat)
    requires prefix <= text && (|prefix| >= step ==> !Fails(fails, prefix[..|prefix| - step]))
    ensures HoldsAt(text, fails, |prefix|, step)
  {
    if |prefix| >= step { assert prefix[..|prefix| - step] == text[..|prefix| - step]; }
  }

  ghost function LeastFailing(text: string, fails: string -> bool, n: nat): (m: nat)
    requires n <= |text| && Fails(fails, text[..n])
    ensures ShortestFailing(text, fails, m)
  {
    if exists i :: 0 <= i < n && Fails(fails, text[..i]) then
      var i :| 0 <= i < n && Fails(fails, text[..i]);
      LeastFailing(text, fails, i)
    else n
  }

  // ----- Both phases --------------------------------------------------------------------

  /** The promised bound on all evaluations fails whenever the line phase, ending on `reduced`, uses
      the budget up and leaves anything for the tail phase; a budget of zero is kept on the empty
      text only.  What the tail phase may add to it is bounded by what it cuts and its levels. */
  method Shrink(text: string, fails: string -> bool, maxRounds: int)
    returns (result: string, reduced: string, rounds: nat, tailEvals: nat)
    ensures Fails(fails, text) ==> Fails(fails, result)
    ensures result == "" || !Fails(fails, result[..|result| - 1])
    ensures result <= reduced && exists lines :: Sub(lines, KeepLines(text)) && reduced == Concat(lines)
    ensures rounds <= if maxRounds < 0 then 0 else maxRounds
    ensures tailEvals <= |reduced| - |result| + Levels(FirstStep(reduced))
    ensures rounds == maxRounds ==> (rounds + tailEvals <= maxRounds <==> reduced == "")
    ensures maxRounds == 0 ==> (rounds + tailEvals <= maxRounds <==> text == "")
    ensures maxRounds < 0 ==> rounds + tailEvals > maxRounds
  {
    var lines;
    reduced, lines, rounds := ShrinkLines(text, fails, maxRounds);
    result, tailEvals := ShrinkTail(reduced, fails);
    assert Sub(lines, KeepLines(text)) && reduced == Concat(lines);
  }
}
