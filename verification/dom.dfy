/**
 * An abstract HTML tree: the part of the DOM that the template engine
 * reads and rewrites.  A forest (`seq<Node>`) stands for the children of
 * an element or of a detached container; a node inside it is named by its
 * address, the child indices on the way down.  Parsing (setting
 * `innerHTML`) and serialising (reading `innerHTML`) are left abstract as
 * the two functions of an `HtmlCodec`.
 */
module Dom {
  import opened Wrappers
  import opened Strings

  datatype Attr = Attr(name: string, value: string)

  datatype Node =
    | Text(text: string)
    | Comment(text: string)
    | Element(tag: string, attrs: seq<Attr>, kids: seq<Node>)

  /** `innerHTML = s` parses `s` into children; reading `innerHTML` serialises them. */
  datatype HtmlCodec = HtmlCodec(parse: string -> seq<Node>, serialize: seq<Node> -> string)

  type Address = seq<nat>

  // ---------------------------------------------------------------------
  // Addresses

  predicate ValidAddr(f: seq<Node>, a: Address)
    decreases |a|
  {
    |a| > 0 && a[0] < |f| && (|a| == 1 || (f[a[0]].Element? && ValidAddr(f[a[0]].kids, a[1..])))
  }

  function At(f: seq<Node>, a: Address): Node
    requires ValidAddr(f, a)
    decreases |a|
  {
    if |a| == 1 then f[a[0]] else At(f[a[0]].kids, a[1..])
  }

  /**
   * The forest with the node at `a` replaced by the nodes `ys`, in its
   * place among its siblings; the ancestors keep their tag and attributes.
   */
  function Splice(f: seq<Node>, a: Address, ys: seq<Node>): (r: seq<Node>)
    requires ValidAddr(f, a)
    ensures |a| == 1 ==> |r| == |f| - 1 + |ys|
    ensures |a| > 1 ==> (|r| == |f| && r[a[0]].Element?
      && r[a[0]].tag == f[a[0]].tag && r[a[0]].attrs == f[a[0]].attrs)
    ensures forall k :: 0 <= k < a[0] ==> r[k] == f[k]
    ensures |a| == 1 ==> forall k :: a[0] < k < |f| ==> r[k - 1 + |ys|] == f[k]
    ensures |a| > 1 ==> forall k :: 0 <= k < |f| && k != a[0] ==> r[k] == f[k]
    decreases |a|
  {
    if |a| == 1 then f[..a[0]] + ys + f[a[0] + 1..]
    else
      var e := f[a[0]];
      f[a[0] := Element(e.tag, e.attrs, Splice(e.kids, a[1..], ys))]
  }

  /** The element at `a` with its children replaced by `ks`. */
  function SetKids(f: seq<Node>, a: Address, ks: seq<Node>): seq<Node>
    requires ValidAddr(f, a) && At(f, a).Element?
  {
    Splice(f, a, [Element(At(f, a).tag, At(f, a).attrs, ks)])
  }

  /** The address `k` siblings to the right of `a`. */
  function Shift(a: Address, k: nat): (r: Address)
    requires |a| > 0
    ensures |r| == |a| && r[..|a| - 1] == a[..|a| - 1] && r[|a| - 1] == a[|a| - 1] + k
  {
    a[..|a| - 1] + [a[|a| - 1] + k]
  }

  /** Shifting by `k` and then by one more is shifting by `k + 1`. */
  lemma ShiftOnce(a: Address, k: nat)
    requires |a| > 0
    ensures Shift(Shift(a, k), 1) == Shift(a, k + 1)
  {
    var b := Shift(a, k);
    assert b[..|b| - 1] == a[..|a| - 1];
  }

  /** The children of the node at `p`, or the forest itself for the empty address. */
  function ChildrenAt(f: seq<Node>, p: Address): seq<Node>
    requires p == [] || (ValidAddr(f, p) && At(f, p).Element?)
  {
    if p == [] then f else At(f, p).kids
  }

  /**
   * Splicing at `p + [j]` puts `ys` in place of the `j`-th child of `p`
   * and leaves the other children of `p` where they were.
   */
  lemma {:induction false} SpliceSiblings(f: seq<Node>, p: Address, j: nat, ys: seq<Node>)
    requires ValidAddr(f, p + [j])
    ensures p == [] || (ValidAddr(Splice(f, p + [j], ys), p) && At(Splice(f, p + [j], ys), p).Element?)
    ensures p != [] ==> ValidAddr(f, p) && At(f, p).Element?
    ensures (p == [] || (ValidAddr(f, p) && At(f, p).Element?)) ==>
      j < |ChildrenAt(f, p)| &&
      ChildrenAt(Splice(f, p + [j], ys), p) == ChildrenAt(f, p)[..j] + ys + ChildrenAt(f, p)[j + 1..]
    decreases |p|
  {
    if p != [] {
      var a := p + [j];
      assert a[0] == p[0] && a[1..] == p[1..] + [j];
      if |p| > 1 {
        SpliceSiblings(f[p[0]].kids, p[1..], j, ys);
      }
    }
  }

  /**
   * Inserting nodes one at a time before the node at `a` and then removing
   * it: after `ys` and then `x` were put in place of the node at `a`, `x`
   * sits `|ys|` places to the right, and replacing it by `zs` is the same
   * as having put `ys + zs` there in the first place.
   */
  lemma {:induction false} SpliceShift(f: seq<Node>, a: Address, ys: seq<Node>, x: Node, zs: seq<Node>)
    requires ValidAddr(f, a)
    ensures ValidAddr(Splice(f, a, ys + [x]), Shift(a, |ys|))
    ensures At(Splice(f, a, ys + [x]), Shift(a, |ys|)) == x
    ensures Splice(Splice(f, a, ys + [x]), Shift(a, |ys|), zs) == Splice(f, a, ys + zs)
    decreases |a|
  {
    var g := Splice(f, a, ys + [x]);
    var b := Shift(a, |ys|);
    if |a| == 1 {
      var j := a[0];
      assert b == [j + |ys|];
      assert g == f[..j] + ys + [x] + f[j + 1..];
      assert g[j + |ys|] == x;
      assert g[..j + |ys|] == f[..j] + ys;
      assert g[j + |ys| + 1..] == f[j + 1..];
    } else {
      var j := a[0];
      var e := f[j];
      SpliceShift(e.kids, a[1..], ys, x, zs);
      assert b[0] == j && b[1..] == Shift(a[1..], |ys|);
    }
  }

  /** Putting the node at `a` back in its own place changes nothing. */
  lemma {:induction false} SpliceSelf(f: seq<Node>, a: Address)
    requires ValidAddr(f, a)
    ensures Splice(f, a, [At(f, a)]) == f
    decreases |a|
  {
    if |a| == 1 {
      assert f[..a[0]] + [f[a[0]]] + f[a[0] + 1..] == f;
    } else {
      SpliceSelf(f[a[0]].kids, a[1..]);
    }
  }

  /** A node replaced by one node and then by `ys` is as if replaced by `ys` directly. */
  lemma SpliceTwice(f: seq<Node>, a: Address, x: Node, ys: seq<Node>)
    requires ValidAddr(f, a)
    ensures ValidAddr(Splice(f, a, [x]), a) && At(Splice(f, a, [x]), a) == x
    ensures Splice(Splice(f, a, [x]), a, ys) == Splice(f, a, ys)
  {
    SpliceShift(f, a, [], x, ys);
    assert [] + [x] == [x] && [] + ys == ys;
    assert Shift(a, 0) == a;
  }

  /** Setting the children of an element keeps the element, with its tag and attributes, where it was. */
  lemma SetKidsAt(f: seq<Node>, a: Address, ks: seq<Node>)
    requires ValidAddr(f, a) && At(f, a).Element?
    ensures ValidAddr(SetKids(f, a, ks), a)
    ensures At(SetKids(f, a, ks), a) == Element(At(f, a).tag, At(f, a).attrs, ks)
  {
    SpliceTwice(f, a, Element(At(f, a).tag, At(f, a).attrs, ks), []);
  }

  // ---------------------------------------------------------------------
  // `querySelector(name)`: the first descendant element in document order
  // whose lower-cased tag is the lower-cased name.

  predicate Matches(n: Node, name: string) {
    n.Element? && Lower(n.tag) == Lower(name)
  }

  /** `b` comes before `a` in document (pre-) order: an ancestor, or to the left. */
  predicate Before(b: Address, a: Address)
    decreases |b|
  {
    |b| > 0 && |a| > 0 &&
    (b[0] < a[0] || (b[0] == a[0] && |a| > 1 && (|b| == 1 || Before(b[1..], a[1..]))))
  }

  function FindFirstFrom(f: seq<Node>, name: string, i: nat): (r: Option<Address>)
    requires i <= |f|
    ensures r.Some? ==> ValidAddr(f, r.value) && r.value[0] >= i && Matches(At(f, r.value), name)
    decreases f, |f| - i
  {
    if i == |f| then None
    else if Matches(f[i], name) then Some([i])
    else if f[i].Element? then
      match FindFirstFrom(f[i].kids, name, 0)
      case Some(a) => Some([i] + a)
      case None => FindFirstFrom(f, name, i + 1)
    else FindFirstFrom(f, name, i + 1)
  }

  function FindFirst(f: seq<Node>, name: string): (r: Option<Address>)
    ensures r.Some? ==> ValidAddr(f, r.value) && Matches(At(f, r.value), name)
  {
    FindFirstFrom(f, name, 0)
  }

  lemma {:induction false} FindFirstFromIsFirst(f: seq<Node>, name: string, i: nat, b: Address)
    requires i <= |f| && ValidAddr(f, b) && b[0] >= i
    requires FindFirstFrom(f, name, i).None? || Before(b, FindFirstFrom(f, name, i).value)
    ensures !Matches(At(f, b), name)
    decreases f, |f| - i
  {
    if b[0] == i {
      if |b| > 1 {
        var inner := FindFirstFrom(f[i].kids, name, 0);
        if inner.Some? {
          assert FindFirstFrom(f, name, i) == Some([i] + inner.value);
          assert ([i] + inner.value)[1..] == inner.value;
        }
        FindFirstFromIsFirst(f[i].kids, name, 0, b[1..]);
      }
    } else {
      FindFirstFromIsFirst(f, name, i + 1, b);
    }
  }

  /** No element that comes before the one found matches. */
  lemma FindFirstIsFirst(f: seq<Node>, name: string, b: Address)
    requires FindFirst(f, name).Some?
    requires ValidAddr(f, b) && Before(b, FindFirst(f, name).value)
    ensures !Matches(At(f, b), name)
  {
    FindFirstFromIsFirst(f, name, 0, b);
  }

  /** Nothing is found exactly when no element matches. */
  lemma FindFirstNoneIffAbsent(f: seq<Node>, name: string)
    ensures FindFirst(f, name).None? <==> forall b :: ValidAddr(f, b) ==> !Matches(At(f, b), name)
  {
    var r := FindFirst(f, name);
    if r.None? {
      forall b | ValidAddr(f, b) ensures !Matches(At(f, b), name) {
        FindFirstFromIsFirst(f, name, 0, b);
      }
    } else {
      var a: Address := r.value;
      assert ValidAddr(f, a) && Matches(At(f, a), name);
      assert exists b: Address :: ValidAddr(f, b) && Matches(At(f, b), name);
    }
  }

  // ---------------------------------------------------------------------
  // A walk over the text nodes (a tree walker showing text only), and the
  // replacement of every text node that contains a marker.

  datatype WalkStep = WalkStep(addr: Address, text: string)

  function PrefixSteps(i: nat, ws: seq<WalkStep>): (r: seq<WalkStep>)
    ensures |r| == |ws|
    ensures forall k :: 0 <= k < |ws| ==> r[k] == WalkStep([i] + ws[k].addr, ws[k].text)
  {
    seq(|ws|, k requires 0 <= k < |ws| => WalkStep([i] + ws[k].addr, ws[k].text))
  }

  function PrefixAddrs(i: nat, addrs: seq<Address>): (r: seq<Address>)
    ensures |r| == |addrs|
    ensures forall k :: 0 <= k < |addrs| ==> r[k] == [i] + addrs[k]
  {
    seq(|addrs|, k requires 0 <= k < |addrs| => [i] + addrs[k])
  }

  /** The text nodes inside `f[i]` (or `f[i]` itself), in document order. */
  function HereSteps(f: seq<Node>, i: nat): (r: seq<WalkStep>)
    requires i < |f|
    ensures forall k :: 0 <= k < |r| ==> |r[k].addr| > 0 && r[k].addr[0] == i
    decreases f, 0
  {
    match f[i]
    case Text(t) => [WalkStep([i], t)]
    case Element(_, _, ks) => PrefixSteps(i, WalkFrom(ks, 0))
    case Comment(_) => []
  }

  /** The text nodes of `f[i..]` and their values, in document order. */
  function WalkFrom(f: seq<Node>, i: nat): (r: seq<WalkStep>)
    requires i <= |f|
    ensures forall k :: 0 <= k < |r| ==> |r[k].addr| > 0 && r[k].addr[0] >= i
    decreases f, |f| - i + 1
  {
    if i == |f| then [] else HereSteps(f, i) + WalkFrom(f, i + 1)
  }

  function Walk(f: seq<Node>): seq<WalkStep> {
    WalkFrom(f, 0)
  }

  lemma InPrefixSteps(i: nat, ws: seq<WalkStep>, a: Address, t: string)
    ensures WalkStep(a, t) in PrefixSteps(i, ws) <==> |a| > 0 && a[0] == i && WalkStep(a[1..], t) in ws
  {
    if WalkStep(a, t) in PrefixSteps(i, ws) {
      var k :| 0 <= k < |ws| && PrefixSteps(i, ws)[k] == WalkStep(a, t);
      assert a[1..] == ws[k].addr;
    }
    if |a| > 0 && a[0] == i && WalkStep(a[1..], t) in ws {
      var k :| 0 <= k < |ws| && ws[k] == WalkStep(a[1..], t);
      assert PrefixSteps(i, ws)[k] == WalkStep(a, t);
    }
  }

  /** The steps inside `f[i]` are exactly the text nodes there, with their values. */
  lemma {:induction false} HereStepsExact(f: seq<Node>, i: nat, a: Address, t: string)
    requires i < |f|
    ensures WalkStep(a, t) in HereSteps(f, i) <==>
      (|a| > 0 && a[0] == i && ValidAddr(f, a) && At(f, a) == Text(t))
    decreases f, 0
  {
    match f[i]
    case Text(s) =>
      assert |a| > 0 && a[0] == i && ValidAddr(f, a) ==> a == [i];
    case Element(_, _, ks) =>
      InPrefixSteps(i, WalkFrom(ks, 0), a, t);
      if |a| > 1 {
        WalkFromExact(ks, 0, a[1..], t);
      }
    case Comment(_) =>
      assert |a| > 0 && a[0] == i && ValidAddr(f, a) ==> |a| == 1;
  }

  /** The walk lists exactly the text nodes, each with its own value. */
  lemma {:induction false} WalkFromExact(f: seq<Node>, i: nat, a: Address, t: string)
    requires i <= |f|
    ensures WalkStep(a, t) in WalkFrom(f, i) <==>
      (|a| > 0 && a[0] >= i && ValidAddr(f, a) && At(f, a) == Text(t))
    decreases f, |f| - i + 1
  {
    if i < |f| {
      HereStepsExact(f, i, a, t);
      WalkFromExact(f, i + 1, a, t);
    }
  }

  /** The walk lists exactly the text nodes of the forest. */
  lemma WalkExact(f: seq<Node>, a: Address, t: string)
    ensures WalkStep(a, t) in Walk(f) <==> ValidAddr(f, a) && At(f, a) == Text(t)
  {
    WalkFromExact(f, 0, a, t);
  }

  /** The addresses of the walked text nodes whose value contains `m`. */
  function MarkedTexts(ws: seq<WalkStep>, m: string): (r: seq<Address>)
    ensures |r| <= |ws|
    ensures (forall k :: 0 <= k < |ws| ==> |ws[k].addr| > 0) ==> forall k :: 0 <= k < |r| ==> |r[k]| > 0
  {
    if ws == [] then []
    else (if Contains(ws[0].text, m) then [ws[0].addr] else []) + MarkedTexts(ws[1..], m)
  }

  lemma {:induction false} MarkedTextsAppend(xs: seq<WalkStep>, ys: seq<WalkStep>, m: string)
    ensures MarkedTexts(xs + ys, m) == MarkedTexts(xs, m) + MarkedTexts(ys, m)
    decreases |xs|
  {
    if xs == [] {
      assert xs + ys == ys;
    } else {
      assert (xs + ys)[0] == xs[0];
      assert (xs + ys)[1..] == xs[1..] + ys;
      MarkedTextsAppend(xs[1..], ys, m);
    }
  }

  lemma PrefixAddrsAppend(i: nat, xs: seq<Address>, ys: seq<Address>)
    ensures PrefixAddrs(i, xs + ys) == PrefixAddrs(i, xs) + PrefixAddrs(i, ys)
  {
    var l, r := PrefixAddrs(i, xs + ys), PrefixAddrs(i, xs) + PrefixAddrs(i, ys);
    forall k | 0 <= k < |l|
      ensures l[k] == r[k]
    {
      if k < |xs| {
        assert (xs + ys)[k] == xs[k];
      } else {
        assert (xs + ys)[k] == ys[k - |xs|];
      }
    }
  }

  lemma {:induction false} MarkedTextsPrefixed(i: nat, ws: seq<WalkStep>, m: string)
    ensures MarkedTexts(PrefixSteps(i, ws), m) == PrefixAddrs(i, MarkedTexts(ws, m))
    decreases |ws|
  {
    if ws != [] {
      var ps := PrefixSteps(i, ws);
      assert ps[0] == WalkStep([i] + ws[0].addr, ws[0].text);
      assert ps[1..] == PrefixSteps(i, ws[1..]);
      MarkedTextsPrefixed(i, ws[1..], m);
      var head := if Contains(ws[0].text, m) then [ws[0].addr] else [];
      assert MarkedTexts(ws, m) == head + MarkedTexts(ws[1..], m);
      PrefixAddrsAppend(i, head, MarkedTexts(ws[1..], m));
      assert PrefixAddrs(i, head) == if Contains(ws[0].text, m) then [[i] + ws[0].addr] else [];
    }
  }

  /** Each listed address comes from a step whose text contains the marker. */
  lemma {:induction false} MarkedTextsFrom(ws: seq<WalkStep>, m: string, k: nat)
    requires k < |MarkedTexts(ws, m)|
    ensures exists j :: 0 <= j < |ws| && ws[j].addr == MarkedTexts(ws, m)[k] && Contains(ws[j].text, m)
    decreases |ws|
  {
    var head := if Contains(ws[0].text, m) then [ws[0].addr] else [];
    assert MarkedTexts(ws, m) == head + MarkedTexts(ws[1..], m);
    if k >= |head| {
      MarkedTextsFrom(ws[1..], m, k - |head|);
      var j :| 0 <= j < |ws| - 1 && ws[1..][j].addr == MarkedTexts(ws[1..], m)[k - |head|]
               && Contains(ws[1..][j].text, m);
      assert ws[j + 1] == ws[1..][j];
    } else {
      assert ws[0].addr == MarkedTexts(ws, m)[k];
    }
  }

  /** The walker lists text nodes of the forest: each listed address names one, containing the marker. */
  lemma MarkedTextIsText(f: seq<Node>, m: string, k: nat)
    requires k < |MarkedTexts(Walk(f), m)|
    ensures ValidAddr(f, MarkedTexts(Walk(f), m)[k])
    ensures At(f, MarkedTexts(Walk(f), m)[k]).Text?
    ensures Contains(At(f, MarkedTexts(Walk(f), m)[k]).text, m)
  {
    var ws := Walk(f);
    MarkedTextsFrom(ws, m, k);
    var j :| 0 <= j < |ws| && ws[j].addr == MarkedTexts(ws, m)[k] && Contains(ws[j].text, m);
    assert WalkStep(ws[j].addr, ws[j].text) in ws;
    WalkExact(f, ws[j].addr, ws[j].text);
  }

  /** Replaces the node at `a` by `n` when it is still a text node there. */
  function ReplaceTextAt(f: seq<Node>, a: Address, n: Node): seq<Node> {
    if ValidAddr(f, a) && At(f, a).Text? then Splice(f, a, [n]) else f
  }

  /** The replacements one after another, in the order of `addrs`. */
  function ReplaceEach(f: seq<Node>, addrs: seq<Address>, n: Node): seq<Node>
    decreases |addrs|
  {
    if addrs == [] then f else ReplaceEach(ReplaceTextAt(f, addrs[0], n), addrs[1..], n)
  }

  /** One step of `ReplaceEach` at position `k` of the address list. */
  lemma ReplaceEachStep(f: seq<Node>, addrs: seq<Address>, k: nat, n: Node)
    requires k < |addrs|
    ensures ReplaceEach(f, addrs[k..], n) == ReplaceEach(ReplaceTextAt(f, addrs[k], n), addrs[k + 1..], n)
  {
    assert addrs[k..][0] == addrs[k] && addrs[k..][1..] == addrs[k + 1..];
  }

  /** Reference definition: every text node containing `m`, as a whole, becomes `n`. */
  function MapText(f: seq<Node>, m: string, n: Node): (r: seq<Node>)
    ensures |r| == |f|
    decreases f
  {
    seq(|f|, k requires 0 <= k < |f| =>
      match f[k]
      case Text(t) => if Contains(t, m) then n else f[k]
      case Element(tg, at, ks) => Element(tg, at, MapText(ks, m, n))
      case Comment(_) => f[k])
  }

  lemma {:induction false} ReplaceEachAppend(f: seq<Node>, xs: seq<Address>, ys: seq<Address>, n: Node)
    ensures ReplaceEach(f, xs + ys, n) == ReplaceEach(ReplaceEach(f, xs, n), ys, n)
    decreases |xs|
  {
    if xs == [] {
      assert xs + ys == ys;
    } else {
      assert (xs + ys)[0] == xs[0];
      assert (xs + ys)[1..] == xs[1..] + ys;
      ReplaceEachAppend(ReplaceTextAt(f, xs[0], n), xs[1..], ys, n);
    }
  }

  lemma ReplaceTextAtUnder(f: seq<Node>, i: nat, a: Address, n: Node)
    requires i < |f| && f[i].Element? && a != []
    ensures ReplaceTextAt(f, [i] + a, n)
         == f[i := Element(f[i].tag, f[i].attrs, ReplaceTextAt(f[i].kids, a, n))]
  {
    var b := [i] + a;
    assert b[0] == i && b[1..] == a;
    if !(ValidAddr(f[i].kids, a) && At(f[i].kids, a).Text?) {
      assert f[i] == Element(f[i].tag, f[i].attrs, f[i].kids);
    }
  }

  lemma {:induction false} ReplaceEachUnder(f: seq<Node>, i: nat, addrs: seq<Address>, n: Node)
    requires i < |f| && f[i].Element?
    requires forall k :: 0 <= k < |addrs| ==> addrs[k] != []
    ensures ReplaceEach(f, PrefixAddrs(i, addrs), n)
         == f[i := Element(f[i].tag, f[i].attrs, ReplaceEach(f[i].kids, addrs, n))]
    decreases |addrs|
  {
    if addrs == [] {
      assert f[i] == Element(f[i].tag, f[i].attrs, f[i].kids);
    } else {
      ReplaceTextAtUnder(f, i, addrs[0], n);
      var g := ReplaceTextAt(f, [i] + addrs[0], n);
      assert PrefixAddrs(i, addrs)[1..] == PrefixAddrs(i, addrs[1..]);
      ReplaceEachUnder(g, i, addrs[1..], n);
      assert g[i := Element(g[i].tag, g[i].attrs, ReplaceEach(g[i].kids, addrs[1..], n))]
          == f[i := Element(f[i].tag, f[i].attrs, ReplaceEach(f[i].kids, addrs, n))];
    }
  }

  /** `MapText` maps every node on its own. */
  lemma MapTextCons(f: seq<Node>, m: string, n: Node)
    requires f != []
    ensures MapText(f, m, n) == [MapText(f, m, n)[0]] + MapText(f[1..], m, n)
  {
  }

  lemma {:induction false} ReplaceHere(f: seq<Node>, g: seq<Node>, i: nat, m: string, n: Node)
    requires i < |f| && |g| == |f| && g[i] == f[i]
    ensures ReplaceEach(g, MarkedTexts(HereSteps(f, i), m), n) == g[i := MapText(f[i..], m, n)[0]]
    decreases f, 0
  {
    var tail := f[i..];
    assert tail[0] == f[i];
    match f[i]
    case Text(t) =>
      if Contains(t, m) {
        assert MarkedTexts(HereSteps(f, i), m) == [[i]];
        assert ReplaceEach(g, [[i]], n) == Splice(g, [i], [n]);
        assert g[..i] + [n] + g[i + 1..] == g[i := n];
      } else {
        assert MarkedTexts(HereSteps(f, i), m) == [];
        assert g[i := f[i]] == g;
      }
    case Element(tg, at, ks) =>
      var inner := MarkedTexts(WalkFrom(ks, 0), m);
      MarkedTextsPrefixed(i, WalkFrom(ks, 0), m);
      assert MarkedTexts(HereSteps(f, i), m) == PrefixAddrs(i, inner);
      ReplaceEachUnder(g, i, inner, n);
      ReplaceMarkedFrom(ks, ks, 0, m, n);
      assert ks[0..] == ks && ks[..0] == [];
      assert ReplaceEach(ks, inner, n) == MapText(ks, m, n);
      assert MapText(tail, m, n)[0] == Element(tg, at, MapText(ks, m, n));
    case Comment(_) =>
      assert MarkedTexts(HereSteps(f, i), m) == [];
      assert g[i := f[i]] == g;
  }

  lemma {:induction false} ReplaceMarkedFrom(f: seq<Node>, g: seq<Node>, i: nat, m: string, n: Node)
    requires i <= |f| && |g| == |f| && g[i..] == f[i..]
    ensures ReplaceEach(g, MarkedTexts(WalkFrom(f, i), m), n) == g[..i] + MapText(f[i..], m, n)
    decreases f, |f| - i + 1
  {
    if i == |f| {
      assert g[..i] == g;
    } else {
      var here := MarkedTexts(HereSteps(f, i), m);
      var rest := MarkedTexts(WalkFrom(f, i + 1), m);
      var tail := f[i..];
      var node := MapText(tail, m, n)[0];
      var g1 := g[i := node];
      assert g[i] == g[i..][0] == f[i];
      assert g1[i + 1..] == f[i + 1..] by {
        assert g1[i + 1..] == g[i + 1..];
        assert g[i + 1..] == g[i..][1..];
      }
      calc {
        ReplaceEach(g, MarkedTexts(WalkFrom(f, i), m), n);
        { MarkedTextsAppend(HereSteps(f, i), WalkFrom(f, i + 1), m); }
        ReplaceEach(g, here + rest, n);
        { ReplaceEachAppend(g, here, rest, n); }
        ReplaceEach(ReplaceEach(g, here, n), rest, n);
        { ReplaceHere(f, g, i, m, n); }
        ReplaceEach(g1, rest, n);
        { ReplaceMarkedFrom(f, g1, i + 1, m, n); }
        g1[..i + 1] + MapText(f[i + 1..], m, n);
        { assert g1[..i + 1] == g[..i] + [node]; }
        g[..i] + [node] + MapText(f[i + 1..], m, n);
        { MapTextCons(tail, m, n); assert tail[1..] == f[i + 1..]; }
        g[..i] + MapText(tail, m, n);
      }
    }
  }

  /**
   * Replacing, one after another, the walked text nodes that contain `m`
   * is the same as replacing every text node that contains `m` at once.
   */
  lemma ReplaceMarkedIsMapText(f: seq<Node>, m: string, n: Node)
    ensures ReplaceEach(f, MarkedTexts(Walk(f), m), n) == MapText(f, m, n)
  {
    ReplaceMarkedFrom(f, f, 0, m, n);
    assert f[0..] == f && f[..0] == [];
  }

  /** With no text node containing the marker, the forest is left as it is. */
  lemma MapTextUnmarked(f: seq<Node>, m: string, n: Node)
    requires MarkedTexts(Walk(f), m) == []
    ensures MapText(f, m, n) == f
  {
    ReplaceMarkedIsMapText(f, m, n);
  }

  /**
   * The node at any address of the mapped forest is the mapped node: a text
   * node containing `m` has become `n`, every other text node is unchanged.
   */
  lemma {:induction false} MapTextAt(f: seq<Node>, m: string, n: Node, b: Address)
    requires ValidAddr(f, b)
    ensures ValidAddr(MapText(f, m, n), b)
    ensures At(MapText(f, m, n), b) == MapText([At(f, b)], m, n)[0]
    ensures At(f, b).Text? && Contains(At(f, b).text, m) ==> At(MapText(f, m, n), b) == n
    ensures At(f, b).Text? && !Contains(At(f, b).text, m) ==> At(MapText(f, m, n), b) == At(f, b)
    decreases |b|
  {
    var g := MapText(f, m, n);
    var x := f[b[0]];
    assert [x][0] == x;
    if |b| > 1 {
      MapTextAt(x.kids, m, n, b[1..]);
      assert g[b[0]] == Element(x.tag, x.attrs, MapText(x.kids, m, n));
    }
  }
}
