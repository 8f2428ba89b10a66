/** A redo log over abstract block contents: what a disk with a header, log slots
    and home blocks stands for, and how that meaning moves while the writes of a
    commit or of a recovery reach it one by one. */
module RedoLog {

  /** A disk seen as the log sees it. `head` lists the home blocks of the
      transaction in the log, oldest slot first; empty when nothing is committed. */
  datatype Image<T> = Image(head: seq<nat>, slots: seq<T>, home: map<nat, T>)

  datatype ImageWrite<T> = ToSlot(slot: nat, x: T) | ToHead(lh: seq<nat>) | ToHome(block: nat, x: T)

  ghost predicate Distinct(s: seq<nat>) {
    forall i, j :: 0 <= i < j < |s| ==> s[i] != s[j]
  }

  /** Entries a header may hold: distinct home blocks, one log slot each. */
  ghost predicate GoodEntries<T>(im: Image<T>, lh: seq<nat>) {
    |lh| <= |im.slots| && Distinct(lh) && forall b :: b in lh ==> b in im.home
  }

  ghost predicate WellFormed<T>(im: Image<T>) {
    GoodEntries(im, im.head)
  }

  predicate Fits<T>(im: Image<T>, w: ImageWrite<T>) {
    match w
    case ToSlot(i, _) => i < |im.slots|
    case ToHead(_) => true
    case ToHome(b, _) => b in im.home
  }

  function Put<T>(im: Image<T>, w: ImageWrite<T>): Image<T>
    requires Fits(im, w)
  {
    match w
    case ToSlot(i, x) => im.(slots := im.slots[i := x])
    case ToHead(lh) => im.(head := lh)
    case ToHome(b, x) => im.(home := im.home[b := x])
  }

  /** A transaction as a partial map from home blocks to contents. */
  function TxMap<T>(lh: seq<nat>, data: seq<T>): map<nat, T>
    requires |lh| == |data|
  {
    if lh == [] then map[]
    else TxMap(lh[..|lh| - 1], data[..|lh| - 1])[lh[|lh| - 1] := data[|lh| - 1]]
  }

  /** The home blocks a completed recovery of this image yields. */
  ghost function Abs<T>(im: Image<T>): map<nat, T>
    requires WellFormed(im)
  {
    im.home + TxMap(im.head, im.slots[..|im.head|])
  }

  lemma {:induction false} TxMapKeys<T>(lh: seq<nat>, data: seq<T>)
    requires |lh| == |data|
    ensures forall b :: b in TxMap(lh, data) <==> b in lh
  {
    if lh != [] {
      var n := |lh| - 1;
      TxMapKeys(lh[..n], data[..n]);
      assert lh == lh[..n] + [lh[n]];
    }
  }

  /** With distinct entries a transaction gives each listed block its own datum. */
  lemma {:induction false} TxMapAt<T>(lh: seq<nat>, data: seq<T>, i: nat)
    requires |lh| == |data| && Distinct(lh) && i < |lh|
    ensures lh[i] in TxMap(lh, data) && TxMap(lh, data)[lh[i]] == data[i]
  {
    var n := |lh| - 1;
    if i < n {
      TxMapAt(lh[..n], data[..n], i);
    }
  }

  lemma TxMapExtend<T>(lh: seq<nat>, data: seq<T>, j: nat)
    requires |lh| == |data| && j < |lh|
    ensures TxMap(lh[..j + 1], data[..j + 1]) == TxMap(lh[..j], data[..j])[lh[j] := data[j]]
  {
    assert lh[..j + 1][..j] == lh[..j];
    assert data[..j + 1][..j] == data[..j];
  }

  /** Installing a prefix and then overlaying the whole changes nothing. */
  lemma PrefixAbsorbed<T>(home: map<nat, T>, lh: seq<nat>, data: seq<T>, j: nat)
    requires |lh| == |data| && j <= |lh|
    ensures (home + TxMap(lh[..j], data[..j])) + TxMap(lh, data) == home + TxMap(lh, data)
  {
    TxMapKeys(lh, data);
    TxMapKeys(lh[..j], data[..j]);
  }

  lemma InstalledKeys<T>(home: map<nat, T>, lh: seq<nat>, data: seq<T>, j: nat)
    requires |lh| == |data| && j <= |lh|
    requires forall b :: b in lh ==> b in home
    ensures (home + TxMap(lh[..j], data[..j])).Keys == home.Keys
  {
    TxMapKeys(lh[..j], data[..j]);
  }

  // ------------------------------------------------------------- the writes

  /** write_log: datum i into log slot i. */
  function SlotWrites<T>(data: seq<T>): seq<ImageWrite<T>> {
    seq(|data|, i requires 0 <= i < |data| => ToSlot(i, data[i]))
  }

  /** install_trans: datum i to the home block of entry i. */
  function HomeWrites<T>(lh: seq<nat>, data: seq<T>): seq<ImageWrite<T>>
    requires |lh| == |data|
  {
    seq(|lh|, i requires 0 <= i < |lh| => ToHome(lh[i], data[i]))
  }

  lemma SlotWritesExtend<T>(t: seq<ImageWrite<T>>, data: seq<T>, j: nat)
    requires j < |data|
    ensures t + SlotWrites(data[..j + 1]) == t + SlotWrites(data[..j]) + [ToSlot(j, data[j])]
  {
  }

  lemma HomeWritesExtend<T>(t: seq<ImageWrite<T>>, lh: seq<nat>, data: seq<T>, j: nat)
    requires |lh| == |data| && j < |lh|
    ensures t + HomeWrites(lh[..j + 1], data[..j + 1]) == t + HomeWrites(lh[..j], data[..j]) + [ToHome(lh[j], data[j])]
  {
  }

  /** Every write of commit() in order: write_log, write_head, install_trans,
      write_head of the emptied header. */
  function CommitWrites<T>(lh: seq<nat>, data: seq<T>): seq<ImageWrite<T>>
    requires |lh| == |data|
  {
    if lh == [] then []
    else SlotWrites(data) + [ToHead(lh)] + HomeWrites(lh, data) + [ToHead([])]
  }

  /** Every write of recover_from_log() in order. */
  function RecoverWrites<T>(im: Image<T>): seq<ImageWrite<T>>
    requires |im.head| <= |im.slots|
  {
    HomeWrites(im.head, im.slots[..|im.head|]) + [ToHead([])]
  }

  // ------------------------------------------ closed forms of the prefixes

  /** The image after the first k writes of a commit of (lh, data). */
  ghost function CommitImage<T>(im: Image<T>, lh: seq<nat>, data: seq<T>, k: nat): Image<T>
    requires |lh| == |data| && |lh| <= |im.slots| && lh != []
    requires k <= 2 * |lh| + 2
  {
    var n := |lh|;
    if k <= n then Image([], data[..k] + im.slots[k..], im.home)
    else if k <= 2 * n + 1 then
      Image(lh, data + im.slots[n..], im.home + TxMap(lh[..k - n - 1], data[..k - n - 1]))
    else Image([], data + im.slots[n..], im.home + TxMap(lh, data))
  }

  lemma CommitWriteAt<T>(lh: seq<nat>, data: seq<T>, k: nat)
    requires |data| == |lh| && lh != [] && k < |CommitWrites(lh, data)|
    ensures |CommitWrites(lh, data)| == 2 * |lh| + 2
    ensures CommitWrites(lh, data)[k] ==
      if k < |lh| then ToSlot(k, data[k])
      else if k == |lh| then ToHead(lh)
      else if k <= 2 * |lh| then ToHome(lh[k - |lh| - 1], data[k - |lh| - 1])
      else ToHead([])
  {
  }

  lemma CopyStep<T>(slots: seq<T>, data: seq<T>, k: nat)
    requires k < |data| <= |slots|
    ensures (data[..k] + slots[k..])[k := data[k]] == data[..k + 1] + slots[k + 1..]
  {
  }

  lemma InstallStep<T>(home: map<nat, T>, lh: seq<nat>, data: seq<T>, j: nat)
    requires |lh| == |data| && j < |lh|
    ensures (home + TxMap(lh[..j], data[..j]))[lh[j] := data[j]]
         == home + TxMap(lh[..j + 1], data[..j + 1])
  {
    TxMapExtend(lh, data, j);
  }

  /** Each write of a commit fits, and takes one prefix image to the next. */
  lemma CommitStep<T>(im: Image<T>, lh: seq<nat>, data: seq<T>, k: nat)
    requires im.head == [] && GoodEntries(im, lh) && |data| == |lh| && lh != []
    requires k < |CommitWrites(lh, data)|
    ensures |CommitWrites(lh, data)| == 2 * |lh| + 2
    ensures var c := CommitImage(im, lh, data, k);
      Fits(c, CommitWrites(lh, data)[k]) && Put(c, CommitWrites(lh, data)[k]) == CommitImage(im, lh, data, k + 1)
  {
    var n := |lh|;
    CommitWriteAt(lh, data, k);
    if k < n {
      CopyStep(im.slots, data, k);
    } else if k == n {
      assert data[..n] == data;
      assert im.home + TxMap<T>([], []) == im.home;
    } else if k <= 2 * n {
      InstalledKeys(im.home, lh, data, k - n - 1);
      InstallStep(im.home, lh, data, k - n - 1);
    } else {
      assert lh[..n] == lh && data[..n] == data;
    }
  }

  /** Stopped after any k writes, a commit stands for the old state up to the
      header write and for the new state from then on, and never for anything else. */
  lemma CommitPrefixAbs<T>(im: Image<T>, lh: seq<nat>, data: seq<T>, k: nat)
    requires im.head == [] && GoodEntries(im, lh) && |data| == |lh| && lh != []
    requires k <= 2 * |lh| + 2
    ensures var c := CommitImage(im, lh, data, k);
      && |c.slots| == |im.slots| && c.home.Keys == im.home.Keys
      && WellFormed(c)
      && Abs(c) == (if k <= |lh| then im.home else im.home + TxMap(lh, data))
      && (k == 2 * |lh| + 2 ==> c.head == [] && c.home == im.home + TxMap(lh, data))
  {
    var n := |lh|;
    var c := CommitImage(im, lh, data, k);
    InstalledKeys(im.home, lh, data, n);
    assert lh[..n] == lh && data[..n] == data;
    if k <= n || k == 2 * n + 2 {
      assert c.home + TxMap<T>([], c.slots[..0]) == c.home;
    } else {
      var j := k - n - 1;
      InstalledKeys(im.home, lh, data, j);
      PrefixAbsorbed(im.home, lh, data, j);
      assert c.slots[..n] == data;
    }
  }

  /** The image after the first k writes of a recovery. */
  ghost function RecoverImage<T>(im: Image<T>, k: nat): Image<T>
    requires |im.head| <= |im.slots| && k <= |im.head| + 1
  {
    var n := |im.head|;
    var data := im.slots[..n];
    if k <= n then im.(home := im.home + TxMap(im.head[..k], data[..k]))
    else Image([], im.slots, im.home + TxMap(im.head, data))
  }

  /** One commit write on a disk that is k writes into a commit. */
  lemma CommitAdvance<T>(base: Image<T>, im: Image<T>, lh: seq<nat>, data: seq<T>, k: nat, im': Image<T>)
    requires base.head == [] && GoodEntries(base, lh) && |data| == |lh| && lh != []
    requires k < |CommitWrites(lh, data)| && k <= 2 * |lh| + 2 && im == CommitImage(base, lh, data, k)
    requires Fits(im, CommitWrites(lh, data)[k]) && im' == Put(im, CommitWrites(lh, data)[k])
    ensures k < 2 * |lh| + 2 && im' == CommitImage(base, lh, data, k + 1)
    ensures |im'.slots| == |im.slots| && im'.home.Keys == im.home.Keys && WellFormed(im) && WellFormed(im')
    ensures Abs(im) == if k <= |lh| then base.home else base.home + TxMap(lh, data)
    ensures Abs(im') == if k + 1 <= |lh| then base.home else base.home + TxMap(lh, data)
  {
    CommitStep(base, lh, data, k);
    CommitPrefixAbs(base, lh, data, k);
    CommitPrefixAbs(base, lh, data, k + 1);
  }

  lemma RecoverStep<T>(im: Image<T>, k: nat)
    requires WellFormed(im) && k <= |im.head|
    ensures |RecoverWrites(im)| == |im.head| + 1
    ensures var c := RecoverImage(im, k);
      Fits(c, RecoverWrites(im)[k]) && Put(c, RecoverWrites(im)[k]) == RecoverImage(im, k + 1)
  {
    var n := |im.head|;
    var data := im.slots[..n];
    InstalledKeys(im.home, im.head, data, k);
    if k < n {
      InstallStep(im.home, im.head, data, k);
    } else {
      assert im.head[..n] == im.head && data[..n] == data;
    }
  }

  /** Interrupted anywhere, recovery stands for the state it set out to restore;
      completed, it leaves that state in the home blocks under an empty header. */
  lemma RecoverPrefixAbs<T>(im: Image<T>, k: nat)
    requires WellFormed(im) && k <= |im.head| + 1
    ensures var c := RecoverImage(im, k);
      && |c.slots| == |im.slots| && c.home.Keys == im.home.Keys
      && WellFormed(c) && Abs(c) == Abs(im)
      && (k == |im.head| + 1 ==> c.head == [] && c.home == Abs(im))
  {
    var n := |im.head|;
    var data := im.slots[..n];
    var c := RecoverImage(im, k);
    InstalledKeys(im.home, im.head, data, n);
    assert im.head[..n] == im.head && data[..n] == data;
    if k <= n {
      InstalledKeys(im.home, im.head, data, k);
      PrefixAbsorbed(im.home, im.head, data, k);
    } else {
      assert c.home + TxMap<T>([], c.slots[..0]) == c.home;
    }
  }

  /** One recovery write on a disk that is k writes into recovery. */
  lemma RecoverAdvance<T>(base: Image<T>, im: Image<T>, k: nat) returns (im': Image<T>)
    requires WellFormed(base) && k < |RecoverWrites(base)| && im == RecoverImage(base, k)
    ensures k <= |base.head| && Fits(im, RecoverWrites(base)[k]) && im' == Put(im, RecoverWrites(base)[k])
    ensures im' == RecoverImage(base, k + 1)
    ensures |im'.slots| == |im.slots| && im'.home.Keys == im.home.Keys
    ensures WellFormed(im') && WellFormed(im) && Abs(im') == Abs(im)
  {
    RecoverStep(base, k);
    RecoverPrefixAbs(base, k);
    RecoverPrefixAbs(base, k + 1);
    im' := RecoverImage(base, k + 1);
  }

  /** The image a whole commit() leaves; an empty transaction writes nothing. */
  ghost function Committed<T>(im: Image<T>, lh: seq<nat>, data: seq<T>): Image<T>
    requires |lh| == |data| && |lh| <= |im.slots|
  {
    if lh == [] then im else CommitImage(im, lh, data, 2 * |lh| + 2)
  }

  datatype Aspect = Whole

  ghost predicate Leaves<T>(im: Image<T>, lh: seq<nat>, data: seq<T>, im': Image<T>, a: Aspect) {
    |lh| == |data| && |lh| <= |im.slots| && im' == Committed(im, lh, data)
  }

  /** A whole commit() of the transaction turns im into im'. Stated through Leaves, so that proofs
      that only pass it on do not look inside. */
  ghost predicate CommitsTo<T>(im: Image<T>, lh: seq<nat>, data: seq<T>, im': Image<T>) {
    forall a: Aspect {:trigger Leaves(im, lh, data, im', a)} :: Leaves(im, lh, data, im', a)
  }

  lemma CommitsOne<T>(im: Image<T>, lh: seq<nat>, data: seq<T>, im1: Image<T>, im2: Image<T>)
    requires CommitsTo(im, lh, data, im1) && CommitsTo(im, lh, data, im2)
    ensures im1 == im2
  {
    assert Leaves(im, lh, data, im1, Whole) && Leaves(im, lh, data, im2, Whole);
  }

  /** A commit installs the transaction in the home blocks and leaves the header empty. */
  lemma CommitsHome<T>(im: Image<T>, lh: seq<nat>, data: seq<T>, im': Image<T>)
    requires CommitsTo(im, lh, data, im') && im.head == []
    ensures |lh| == |data| && im'.head == [] && im'.home == im.home + TxMap(lh, data) && |im'.slots| == |im.slots|
  {
    assert Leaves(im, lh, data, im', Whole);
    if lh == [] {
      assert TxMap<T>([], data) == map[];
    }
  }

  lemma CommitsHead<T>(im: Image<T>, lh: seq<nat>, data: seq<T>, im': Image<T>)
    requires CommitsTo(im, lh, data, im') && im.head == []
    ensures im'.head == []
  {
    CommitsHome(im, lh, data, im');
  }

  /** The image and the writes commit leaves, from what its four phases leave. */
  lemma CommitPhases<T>(im: Image<T>, lh: seq<nat>, data: seq<T>, im4: Image<T>, t: seq<ImageWrite<T>>,
                        t4: seq<ImageWrite<T>>)
    requires |lh| == |data| && |lh| <= |im.slots| && lh != []
    requires im4 == Image([], data + im.slots[|lh|..], im.home + TxMap(lh, data))
    requires t4 == t + SlotWrites(data) + [ToHead(lh)] + HomeWrites(lh, data) + [ToHead([])]
    ensures CommitsTo(im, lh, data, im4) && t4 == t + CommitWrites(lh, data)
  {
    var n := |lh|;
    assert 2 * n + 2 > 2 * n + 1 > n;
    var a, b, c, d := SlotWrites(data), [ToHead(lh)], HomeWrites(lh, data), [ToHead([])];
    assert CommitWrites(lh, data) == a + b + c + d;
    Regroup(t, a, b, c, d);
  }

  lemma Regroup<T>(t: seq<T>, a: seq<T>, b: seq<T>, c: seq<T>, d: seq<T>)
    ensures t + a + b + c + d == t + (a + b + c + d)
  {
  }
}
