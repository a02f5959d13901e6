/** Where the page ends up in the merged tree, and where its elements end up on the screen. */
module WebViewTheorems {
  import opened Wrappers
  import opened Arithmetic
  import opened HierarchyBounds
  import opened WebViewMerge

  // ---------------------------------------------------------------------------
  // The first WebView in document order
  // ---------------------------------------------------------------------------

  /** Document order of child-index paths: a node comes before its descendants and its later siblings'. */
  predicate Before(p: seq<nat>, q: seq<nat>) {
    if p == [] then q != []
    else q != [] && (p[0] < q[0] || (p[0] == q[0] && Before(p[1..], q[1..])))
  }

  /** The node reports a class whose name ends in WebView. */
  ghost predicate ReportsWebView(node: TreeNode) {
    "class" in node.attributes && exists prefix :: node.attributes["class"] == prefix + "WebView"
  }

  lemma {:induction false} WebViewExactlyWhenReported(node: TreeNode)
    ensures IsWebView(node) <==> ReportsWebView(node)
  {
    var name := Attribute(node, "class");
    if IsWebView(node) {
      assert name == name[..|name| - 7] + "WebView";
    }
    if "class" in node.attributes {
      forall prefix: string | name == prefix + "WebView" ensures HasSuffix(name, WEB_VIEW) {
        assert name[|name| - 7..] == "WebView";
      }
    }
  }

  ghost predicate IsWebViewAt(node: TreeNode, path: seq<nat>) {
    At(node, path).Some? && ReportsWebView(At(node, path).value)
  }

  /** The page's target is a WebView, and comes before every other one. */
  lemma {:induction false} FirstInDocumentOrder(node: TreeNode, q: seq<nat>)
    requires IsWebViewAt(node, q)
    ensures FirstPath(node).Some? && IsWebViewAt(node, FirstPath(node).value)
    ensures q == FirstPath(node).value || Before(FirstPath(node).value, q)
    decreases node, |node.children| + 2
  {
    hide IsWebView, ReportsWebView;
    FirstIsThere(node);
    WebViewExactlyWhenReported(node);
    WebViewExactlyWhenReported(At(node, q).value);
    if !IsWebView(node) {
      FirstAmongChildren(node, 0, q);
    }
    WebViewExactlyWhenReported(At(node, FirstPath(node).value).value);
  }

  lemma {:induction false} FirstAmongChildren(node: TreeNode, i: nat, q: seq<nat>)
    requires i <= |node.children| && q != [] && i <= q[0] && IsWebViewAt(node, q)
    ensures FirstPathAmong(node, i).Some?
    ensures q == FirstPathAmong(node, i).value || Before(FirstPathAmong(node, i).value, q)
    decreases node, |node.children| - i + 1
  {
    hide IsWebView, ReportsWebView;
    var first := FirstPath(node.children[i]);
    if q[0] == i {
      FirstInDocumentOrder(node.children[i], q[1..]);
      assert ([i] + first.value)[1..] == first.value;
      assert q == [q[0]] + q[1..];
    } else if first.None? {
      FirstAmongChildren(node, i + 1, q);
    }
  }

  // ---------------------------------------------------------------------------
  // Everything else stays
  // ---------------------------------------------------------------------------

  predicate StartsWith(path: seq<nat>, prefix: seq<nat>) {
    |prefix| <= |path| && path[..|prefix|] == prefix
  }

  /** The appended page is the last child of the target. */
  lemma {:induction false} PageIsLastChild(node: TreeNode, p: seq<nat>, page: TreeNode, q: seq<nat>)
    requires At(node, p).Some?
    ensures At(AttachAt(node, p, page), p).Some?
    ensures At(AttachAt(node, p, page), p).value == At(node, p).value.(children := At(node, p).value.children + [page])
    ensures At(AttachAt(node, p, page), p + [|At(node, p).value.children|] + q) == At(page, q)
    decreases |p|
  {
    var path := p + [|At(node, p).value.children|] + q;
    if p == [] {
      assert path[1..] == q;
    } else {
      PageIsLastChild(node.children[p[0]], p[1..], page, q);
      assert path[1..] == p[1..] + [|At(node, p).value.children|] + q;
    }
  }

  /** On the way to the target only the children change, and not their number. */
  lemma {:induction false} AncestorsStay(node: TreeNode, p: seq<nat>, page: TreeNode, q: seq<nat>)
    requires At(node, p).Some? && StartsWith(p, q) && q != p
    ensures At(node, q).Some? && At(AttachAt(node, p, page), q).Some?
    ensures var before, after := At(node, q).value, At(AttachAt(node, p, page), q).value;
            after.attributes == before.attributes && after.flags == before.flags
                && |after.children| == |before.children|
    decreases |p|
  {
    if q != [] {
      assert p[0] == q[0];
      assert p[1..][..|q| - 1] == q[1..];
      assert p == [p[0]] + p[1..] && q == [q[0]] + q[1..];
      AncestorsStay(node.children[p[0]], p[1..], page, q[1..]);
    }
  }

  /** Off the way to the target, and outside the page, every node of the native tree is where it was, and
      no other node appears. */
  lemma {:induction false} OthersStay(node: TreeNode, p: seq<nat>, page: TreeNode, q: seq<nat>)
    requires At(node, p).Some? && !StartsWith(p, q)
    requires !StartsWith(q, p + [|At(node, p).value.children|])
    ensures At(AttachAt(node, p, page), q) == At(node, q)
    decreases |p|
  {
    if p == [] {
      assert q[..1] == [q[0]];
      assert q[0] != |node.children|;
    } else if q[0] == p[0] {
      var k := |At(node, p).value.children|;
      StartsWithStep(p, q);
      StartsWithStep(q, p + [k]);
      assert (p + [k])[1..] == p[1..] + [k];
      OthersStay(node.children[p[0]], p[1..], page, q[1..]);
    }
  }

  lemma StartsWithStep(path: seq<nat>, prefix: seq<nat>)
    requires path != [] && prefix != []
    ensures StartsWith(path, prefix) <==> path[0] == prefix[0] && StartsWith(path[1..], prefix[1..])
  {
    if |prefix| <= |path| {
      assert path[..|prefix|] == [path[0]] + path[1..][..|prefix| - 1];
      assert prefix == [prefix[0]] + prefix[1..];
    }
  }

  function Count(node: TreeNode): nat
    decreases node, |node.children| + 2
  {
    1 + CountFrom(node, 0)
  }

  function CountFrom(node: TreeNode, i: nat): nat
    requires i <= |node.children|
    decreases node, |node.children| - i + 1
  {
    if i == |node.children| then 0 else Count(node.children[i]) + CountFrom(node, i + 1)
  }

  /** Trees whose children agree in number of nodes from i on, except for one child. */
  lemma {:induction false} CountOfChanged(a: TreeNode, b: TreeNode, i: nat, at: nat)
    requires |a.children| == |b.children| && i <= |a.children| && at < |a.children|
    requires forall j :: 0 <= j < |a.children| && j != at ==> a.children[j] == b.children[j]
    ensures CountFrom(b, i) - CountFrom(a, i) == if i <= at then Count(b.children[at]) - Count(a.children[at]) else 0
    decreases |a.children| - i
  {
    if i < |a.children| {
      CountOfChanged(a, b, i + 1, at);
    }
  }

  lemma {:induction false} CountOfAppended(a: TreeNode, b: TreeNode, page: TreeNode, i: nat)
    requires b.children == a.children + [page] && i <= |a.children|
    ensures CountFrom(b, i) == CountFrom(a, i) + Count(page)
    decreases |a.children| - i
  {
    if i < |a.children| {
      assert b.children[i] == a.children[i];
      CountOfAppended(a, b, page, i + 1);
    } else {
      assert CountFrom(b, i + 1) == 0;
    }
  }

  /** Attaching loses and duplicates nothing: the node counts add up. */
  lemma {:induction false} CountsAddUp(node: TreeNode, p: seq<nat>, page: TreeNode)
    requires At(node, p).Some?
    ensures Count(AttachAt(node, p, page)) == Count(node) + Count(page)
    decreases |p|
  {
    var result := AttachAt(node, p, page);
    if p == [] {
      CountOfAppended(node, result, page, 0);
    } else {
      CountsAddUp(node.children[p[0]], p[1..], page);
      CountOfChanged(node, result, 0, p[0]);
    }
  }

  // ---------------------------------------------------------------------------
  // Coordinates
  // ---------------------------------------------------------------------------

  lemma {:induction false} TruncatedIsMonotone(a: int, c: int, b: int)
    requires b > 0 && a <= c
    ensures Truncated(a, b) <= Truncated(c, b)
  {
    if 0 <= a {
      DivIsMonotone(a, c, b);
    } else if c < 0 {
      DivIsMonotone(-c, -a, b);
    } else {
      DivIsMonotone(0, -a, b);
      DivIsMonotone(0, c, b);
    }
  }

  /** Truncating two lengths one by one loses at most one against truncating their sum. */
  lemma TruncatedSum(a: nat, c: nat, b: int)
    requires b > 0
    ensures Truncated(a, b) + Truncated(c, b) <= Truncated(a + c, b) <= Truncated(a, b) + Truncated(c, b) + 1
  {
    DivBounds(a, b);
    DivBounds(c, b);
    DivBounds(a + c, b);
    LinearSum(a / b, c / b, (a + c) / b, a, c, b);
  }

  lemma LinearSum(m: int, n: int, k: int, a: int, c: int, b: int)
    requires b > 0 && m * b <= a < (m + 1) * b && n * b <= c < (n + 1) * b && k * b <= a + c < (k + 1) * b
    ensures m + n <= k <= m + n + 1
  {
    assert (m + n) * b == m * b + n * b;
    FactorsCompare(m + n, k + 1, b);
    assert (m + n + 2) * b == (m + 1) * b + (n + 1) * b;
    FactorsCompare(k, m + n + 2, b);
  }

  lemma TruncatedWhole(c: int, b: int)
    requires b > 0
    ensures Truncated(b * c, b) == c
  {
    if c >= 0 {
      WholeQuotient(c, b);
    } else {
      WholeQuotient(-c, b);
      assert -(b * c) == b * -c;
    }
  }

  lemma WholeQuotient(c: nat, b: int)
    requires b > 0
    ensures (b * c) / b == c
  {
    assert b * c == c * b && (c + 1) * b == c * b + b;
    QuotientIs(b * c, b, c);
  }

  predicate Within(bounds: Bounds, outer: Bounds) {
    && 0 <= bounds.width && 0 <= bounds.height
    && outer.x <= bounds.x && bounds.x + bounds.width <= outer.x + outer.width
    && outer.y <= bounds.y && bounds.y + bounds.height <= outer.y + outer.height
  }

  lemma ScaledStretch(offset: nat, length: nat, whole: int, frame: nat)
    requires whole > 0 && offset + length <= whole
    ensures 0 <= Truncated(offset * frame, whole) && 0 <= Truncated(length * frame, whole)
    ensures Truncated(offset * frame, whole) + Truncated(length * frame, whole) <= frame
  {
    assert offset * frame >= 0 && length * frame >= 0;
    assert (offset + length) * frame == offset * frame + length * frame;
    assert (offset + length) * frame <= whole * frame;
    TruncatedSum(offset * frame, length * frame, whole);
    TruncatedIsMonotone((offset + length) * frame, whole * frame, whole);
    TruncatedWhole(frame, whole);
    TruncatedIsMonotone(0, offset * frame, whole);
    TruncatedIsMonotone(0, length * frame, whole);
  }

  /** Everything inside the page lands inside the frame, whatever truncation does. */
  lemma {:induction false} ScaledStaysInFrame(bounds: Bounds, frame: Bounds, page: Bounds)
    requires page.width > 0 && page.height > 0 && frame.width >= 0 && frame.height >= 0 && Within(bounds, page)
    ensures Within(Scaled(bounds, frame, page), frame)
  {
    hide Truncated;
    ScaledStretch(bounds.x - page.x, bounds.width, page.width, frame.width);
    ScaledStretch(bounds.y - page.y, bounds.height, page.height, frame.height);
  }

  /** `n` is the exact quotient of `a` and `b`, rounded toward zero. */
  ghost predicate TruncatesTo(a: int, b: int, n: int) {
    && (a >= 0 ==> n * b <= a < (n + 1) * b)
    && (a < 0 ==> (n - 1) * b < a <= n * b)
  }

  lemma {:induction false} TruncatedIsTheQuotient(a: int, b: int)
    requires b > 0
    ensures TruncatesTo(a, b, Truncated(a, b))
  {
    if a >= 0 {
      DivBounds(a, b);
    } else {
      DivBounds(-a, b);
      var n := (-a) / b;
      assert -(n * b) == (-n) * b && -((n + 1) * b) == (-n - 1) * b;
    }
  }

  /** Every element is placed in proportion: its offset in the page and its extents are multiplied by the
      frame and divided by the page, axis by axis, and rounded toward zero. */
  lemma {:induction false} ScaledInProportion(bounds: Bounds, frame: Bounds, page: Bounds)
    requires page.width > 0 && page.height > 0
    ensures var s := Scaled(bounds, frame, page);
            && TruncatesTo((bounds.x - page.x) * frame.width, page.width, s.x - frame.x)
            && TruncatesTo((bounds.y - page.y) * frame.height, page.height, s.y - frame.y)
            && TruncatesTo(bounds.width * frame.width, page.width, s.width)
            && TruncatesTo(bounds.height * frame.height, page.height, s.height)
  {
    hide Truncated, TruncatesTo;
    TruncatedIsTheQuotient((bounds.x - page.x) * frame.width, page.width);
    TruncatedIsTheQuotient((bounds.y - page.y) * frame.height, page.height);
    TruncatedIsTheQuotient(bounds.width * frame.width, page.width);
    TruncatedIsTheQuotient(bounds.height * frame.height, page.height);
  }

  /** The page itself lands exactly on the frame. */
  lemma {:induction false} PageLandsOnFrame(frame: Bounds, page: Bounds)
    requires page.width > 0 && page.height > 0
    ensures Scaled(page, frame, page) == frame
  {
    hide Truncated;
    TruncatedWhole(frame.width, page.width);
    TruncatedWhole(frame.height, page.height);
    assert (page.x - page.x) * frame.width == page.width * 0 && (page.y - page.y) * frame.height == page.height * 0;
    TruncatedWhole(0, page.width);
    TruncatedWhole(0, page.height);
  }

  /** Elements keep their order along each axis. */
  lemma {:induction false} ScaledKeepsOrder(a: Bounds, b: Bounds, frame: Bounds, page: Bounds)
    requires page.width > 0 && page.height > 0 && frame.width >= 0 && frame.height >= 0
    ensures a.x <= b.x ==> Scaled(a, frame, page).x <= Scaled(b, frame, page).x
    ensures a.y <= b.y ==> Scaled(a, frame, page).y <= Scaled(b, frame, page).y
  {
    hide Truncated;
    if a.x <= b.x {
      assert (a.x - page.x) * frame.width <= (b.x - page.x) * frame.width;
      TruncatedIsMonotone((a.x - page.x) * frame.width, (b.x - page.x) * frame.width, page.width);
    }
    if a.y <= b.y {
      assert (a.y - page.y) * frame.height <= (b.y - page.y) * frame.height;
      TruncatedIsMonotone((a.y - page.y) * frame.height, (b.y - page.y) * frame.height, page.height);
    }
  }

  /** The scaled end of a stretch that starts at an offset from the page. */
  function ScaledEnd(offset: int, length: int, whole: int, frame: int): int
    requires whole > 0
  {
    Truncated(offset * frame, whole) + Truncated(length * frame, whole)
  }

  lemma ProductsCompare(a: nat, c: nat, frame: nat)
    requires a <= c
    ensures 0 <= a * frame <= c * frame
  {
  }

  /** Truncating the end of a stretch as a whole gains at most one on its scaled end. */
  lemma EndTruncated(offset: nat, length: nat, whole: int, frame: nat)
    requires whole > 0
    ensures var end := Truncated((offset + length) * frame, whole);
            ScaledEnd(offset, length, whole, frame) <= end <= ScaledEnd(offset, length, whole, frame) + 1
  {
    hide Truncated;
    ProductsCompare(0, offset, frame);
    ProductsCompare(0, length, frame);
    assert (offset + length) * frame == offset * frame + length * frame;
    TruncatedSum(offset * frame, length * frame, whole);
  }

  lemma ScaledMonotone(a: nat, c: nat, whole: int, frame: nat)
    requires whole > 0 && a <= c
    ensures Truncated(a * frame, whole) <= Truncated(c * frame, whole)
  {
    hide Truncated;
    ProductsCompare(a, c, frame);
    TruncatedIsMonotone(a * frame, c * frame, whole);
  }

  /** A child inside its parent never starts before it and overhangs its end by at most one pixel. */
  lemma {:induction false} ChildOverhangsByAtMostOne(parent: nat, length: nat, child: nat, childLength: nat, whole: int,
                                                     frame: nat)
    requires whole > 0 && parent <= child && child + childLength <= parent + length
    ensures Truncated(parent * frame, whole) <= Truncated(child * frame, whole)
    ensures ScaledEnd(child, childLength, whole, frame) <= ScaledEnd(parent, length, whole, frame) + 1
  {
    hide Truncated, ScaledEnd;
    ScaledMonotone(parent, child, whole, frame);
    EndTruncated(child, childLength, whole, frame);
    EndTruncated(parent, length, whole, frame);
    ScaledMonotone(child + childLength, parent + length, whole, frame);
  }

  ghost predicate HoldsChildren(parent: nat, length: nat, whole: int, frame: nat)
    requires whole > 0
  {
    forall child: nat, childLength: nat :: parent <= child && child + childLength <= parent + length ==>
      ScaledEnd(child, childLength, whole, frame) <= ScaledEnd(parent, length, whole, frame)
  }

  /** All children of an element stay inside it exactly when the remainders that scaling its offset and its
      length leave add up to less than a pixel. */
  lemma {:induction false} ChildrenStayInsideExactlyWhen(parent: nat, length: nat, whole: int, frame: nat)
    requires whole > 0
    ensures HoldsChildren(parent, length, whole, frame) <==>
            (parent * frame) % whole + (length * frame) % whole < whole
  {
    hide HoldsChildren;
    ChildrenStayInsideByEnd(parent, length, whole, frame);
    ProductsCompare(0, parent, frame);
    ProductsCompare(0, length, frame);
    assert (parent + length) * frame == parent * frame + length * frame;
    QuotientsAdd(parent * frame, length * frame, whole);
  }

  /** In other words, when truncating the two apart loses nothing against truncating the end. */
  lemma {:induction false} ChildrenStayInsideByEnd(parent: nat, length: nat, whole: int, frame: nat)
    requires whole > 0
    ensures HoldsChildren(parent, length, whole, frame) <==>
            ScaledEnd(parent, length, whole, frame) == Truncated((parent + length) * frame, whole)
  {
    hide Truncated;
    EndTruncated(parent, length, whole, frame);
    if ScaledEnd(parent, length, whole, frame) == Truncated((parent + length) * frame, whole) {
      forall child: nat, childLength: nat | parent <= child && child + childLength <= parent + length
        ensures ScaledEnd(child, childLength, whole, frame) <= ScaledEnd(parent, length, whole, frame)
      {
        EndTruncated(child, childLength, whole, frame);
        ScaledMonotone(child + childLength, parent + length, whole, frame);
      }
    }
    if HoldsChildren(parent, length, whole, frame) {
      TruncatedWhole(0, whole);
      assert ScaledEnd(parent + length, 0, whole, frame) == Truncated((parent + length) * frame, whole);
    }
  }

  /** The one pixel does occur: half of a two-pixel page in a one-pixel frame loses its right edge. */
  lemma ChildCanOverhang()
    ensures !HoldsChildren(1, 1, 2, 1)
  {
    ChildrenStayInsideExactlyWhen(1, 1, 2, 1);
  }

  // ---------------------------------------------------------------------------
  // The merged page
  // ---------------------------------------------------------------------------

  lemma {:induction false} ScaledAt(page: TreeNode, frame: Bounds, bounds: Bounds, q: seq<nat>)
    requires bounds.width > 0 && bounds.height > 0
    ensures At(ScaledTree(page, frame, bounds), q) ==
            if At(page, q).Some? then Some(ScaledTree(At(page, q).value, frame, bounds)) else None
    decreases |q|
  {
    hide ScaledAttributes;
    if q != [] && q[0] < |page.children| {
      ScaledAt(page.children[q[0]], frame, bounds, q[1..]);
    }
  }

  /** What becomes of a page element: only its bounds change, and those only if they can be read. */
  ghost predicate IsPlaced(element: TreeNode, placed: TreeNode, frame: Bounds, page: Bounds)
    requires page.width > 0 && page.height > 0
  {
    && placed.flags == element.flags && |placed.children| == |element.children|
    && (forall name :: name != "bounds" ==> Attribute(placed, name) == Attribute(element, name))
    && match ParseBounds(Attribute(element, "bounds"))
       case None => placed.attributes == element.attributes
       case Some(b) =>
         && Attribute(placed, "bounds") == FormatBounds(Scaled(b, frame, page))
         && (Within(b, page) ==> ParseBounds(Attribute(placed, "bounds")) == Some(Scaled(b, frame, page))
                                 && Within(Scaled(b, frame, page), frame))
  }

  lemma ParsedIsHost(text: string)
    ensures ParseBounds(text).Some? ==>
              var b := ParseBounds(text).value;
              HostInteger(b.x) && HostInteger(b.y) && HostInteger(b.x + b.width) && HostInteger(b.y + b.height)
  {
    hide ReadCorners;
  }

  lemma PlacedElement(element: TreeNode, frame: Bounds, page: Bounds, text: string)
    requires page.width > 0 && page.height > 0 && ParseBounds(text) == Some(frame)
    ensures IsPlaced(element, ScaledTree(element, frame, page), frame, page)
  {
    hide Scaled, FormatBounds, ParseBounds, HostInteger;
    ParsedIsHost(text);
    var b := ParseBounds(Attribute(element, "bounds"));
    if b.Some? && Within(b.value, page) {
      FrameIsProper(text);
      ScaledStaysInFrame(b.value, frame, page);
      WithinIsHost(Scaled(b.value, frame, page), frame);
      BoundsRoundTrip(Scaled(b.value, frame, page));
    }
  }

  lemma FrameIsProper(text: string)
    ensures ParseBounds(text).Some? ==> ParseBounds(text).value.width >= 0 && ParseBounds(text).value.height >= 0
  {
  }

  lemma WithinIsHost(bounds: Bounds, frame: Bounds)
    requires Within(bounds, frame) && HostInteger(frame.x) && HostInteger(frame.y)
    requires HostInteger(frame.x + frame.width) && HostInteger(frame.y + frame.height)
    ensures HostInteger(bounds.x) && HostInteger(bounds.y)
    ensures HostInteger(bounds.x + bounds.width) && HostInteger(bounds.y + bounds.height)
  {
  }

  /** Merging puts the page below the first WebView exactly when there is one, both bounds can be read, and
      the page has an area. */
  lemma MergesExactlyWhen(native: TreeNode, page: TreeNode, p: seq<nat>)
    requires FirstPath(native) == Some(p)
    ensures Merged(native, page).Success? <==>
            exists target, frame, bounds :: Mergeable(native, page, p, target, frame, bounds)
    ensures forall target, frame, bounds :: Mergeable(native, page, p, target, frame, bounds) ==>
              Merged(native, page) == Success(AttachAt(native, p, ScaledTree(page, frame, bounds)))
  {
    hide ParseBounds, AttachAt, ScaledTree, IsWebView, FirstPath;
    FirstIsThere(native);
    if Merged(native, page).Success? {
      var target := At(native, p).value;
      assert Mergeable(native, page, p, target, ParseBounds(Attribute(target, "bounds")).value,
                       ParseBounds(Attribute(page, "bounds")).value);
    }
  }

  ghost predicate Mergeable(native: TreeNode, page: TreeNode, p: seq<nat>, target: TreeNode, frame: Bounds,
                            bounds: Bounds) {
    At(native, p) == Some(target) && ReadsAs(target, frame) && ReadsAs(page, bounds) && bounds.width > 0
        && bounds.height > 0
  }

  /** Once the page is attached, every page element is found below the first WebView, at its own path in
      the page, placed on the screen; and the page as a whole covers the WebView exactly. */
  lemma {:induction false} MergedPageIsPlaced(native: TreeNode, page: TreeNode, merged: TreeNode, p: seq<nat>,
                                              target: TreeNode,
                                              frame: Bounds, bounds: Bounds, q: seq<nat>, element: TreeNode)
    requires bounds.width > 0 && bounds.height > 0 && merged == AttachAt(native, p, ScaledTree(page, frame, bounds))
    requires At(native, p) == Some(target) && At(page, q) == Some(element) && ReadsAs(target, frame)
    requires ReadsAs(page, bounds)
    ensures PlacedAt(merged, p + [|target.children|] + q, element, frame, bounds)
    ensures At(merged, p + [|target.children|]).Some? && ReadsAs(At(merged, p + [|target.children|]).value, frame)
  {
    hide ParseBounds, ScaledTree, AttachAt, IsPlaced;
    PageIsLastChild(native, p, ScaledTree(page, frame, bounds), q);
    ScaledAt(page, frame, bounds, q);
    PlacedElement(element, frame, bounds, Attribute(target, "bounds"));
    PageIsLastChild(native, p, ScaledTree(page, frame, bounds), []);
    PlacedElement(page, frame, bounds, Attribute(target, "bounds"));
    PageLandsOnFrame(frame, bounds);
    RootIsOnFrame(page, ScaledTree(page, frame, bounds), frame, bounds);
    assert p + [|target.children|] + [] == p + [|target.children|];
  }

  ghost predicate ReadsAs(node: TreeNode, bounds: Bounds) {
    ParseBounds(Attribute(node, "bounds")) == Some(bounds)
  }

  ghost predicate PlacedAt(merged: TreeNode, path: seq<nat>, element: TreeNode, frame: Bounds, bounds: Bounds)
    requires bounds.width > 0 && bounds.height > 0
  {
    At(merged, path).Some? && IsPlaced(element, At(merged, path).value, frame, bounds)
  }

  lemma RootIsOnFrame(page: TreeNode, placed: TreeNode, frame: Bounds, bounds: Bounds)
    requires bounds.width > 0 && bounds.height > 0 && ParseBounds(Attribute(page, "bounds")) == Some(bounds)
    requires IsPlaced(page, placed, frame, bounds) && Scaled(bounds, frame, bounds) == frame
    ensures ParseBounds(Attribute(placed, "bounds")) == Some(frame)
  {
    hide ParseBounds, Scaled;
  }
}
