/** Merging a web page's hierarchy into the native one: the page goes under the first WebView, with its
    bounds scaled from page to screen coordinates. */
module WebViewMerge {
  import opened Wrappers
  import opened HierarchyBounds

  // ---------------------------------------------------------------------------
  // Trees
  // ---------------------------------------------------------------------------

  datatype Flags = Flags(clickable: Option<bool>, enabled: Option<bool>, focused: Option<bool>, checked: Option<bool>,
                         selected: Option<bool>)

  datatype TreeNode = TreeNode(attributes: map<string, string>, children: seq<TreeNode>, flags: Flags)

  const WEB_VIEW := "WebView"

  /** A missing attribute reads as the empty string. */
  function Attribute(node: TreeNode, name: string): string {
    if name in node.attributes then node.attributes[name] else ""
  }

  predicate HasSuffix(text: string, suffix: string) {
    |suffix| <= |text| && text[|text| - |suffix|..] == suffix
  }

  predicate IsWebView(node: TreeNode) {
    HasSuffix(Attribute(node, "class"), WEB_VIEW)
  }

  // ---------------------------------------------------------------------------
  // Finding and attaching
  // ---------------------------------------------------------------------------

  function FindWebView(node: TreeNode): Option<TreeNode>
    decreases node, |node.children| + 2
  {
    if IsWebView(node) then Some(node) else FindAmong(node, 0)
  }

  /** The first WebView of the children from index i on. */
  function FindAmong(node: TreeNode, i: nat): Option<TreeNode>
    requires i <= |node.children|
    decreases node, |node.children| - i + 1
  {
    if i == |node.children| then None
    else
      var found := FindWebView(node.children[i]);
      if found.Some? then found else FindAmong(node, i + 1)
  }

  /** The path of child indices to the first WebView. */
  function FirstPath(node: TreeNode): Option<seq<nat>>
    decreases node, |node.children| + 2
  {
    if IsWebView(node) then Some([]) else FirstPathAmong(node, 0)
  }

  function FirstPathAmong(node: TreeNode, i: nat): (path: Option<seq<nat>>)
    requires i <= |node.children|
    ensures path.Some? ==> path.value != [] && i <= path.value[0] < |node.children|
    decreases node, |node.children| - i + 1
  {
    if i == |node.children| then None
    else
      var path := FirstPath(node.children[i]);
      if path.Some? then Some([i] + path.value) else FirstPathAmong(node, i + 1)
  }

  /** The node at a path of child indices. */
  function At(node: TreeNode, path: seq<nat>): Option<TreeNode>
    decreases |path|
  {
    if path == [] then Some(node)
    else if path[0] < |node.children| then At(node.children[path[0]], path[1..])
    else None
  }

  /** The tree with the page appended to the children of the node at the path. */
  function AttachAt(node: TreeNode, path: seq<nat>, page: TreeNode): TreeNode
    decreases |path|
  {
    if path == [] then node.(children := node.children + [page])
    else if path[0] < |node.children|
    then node.(children := node.children[path[0] := AttachAt(node.children[path[0]], path[1..], page)])
    else node
  }

  /** Rebuilds the tree with the page under its first WebView. */
  method AttachToFirstWebView(node: TreeNode, page: TreeNode) returns (result: TreeNode, attached: bool)
    ensures attached <==> FirstPath(node).Some?
    ensures result == if attached then AttachAt(node, FirstPath(node).value, page) else node
    decreases node
  {
    if IsWebView(node) {
      return node.(children := node.children + [page]), true;
    }
    if node.children == [] {
      return node, false;
    }
    var children: seq<TreeNode> := [];
    attached := false;
    ghost var path := [];
    for i := 0 to |node.children|
      invariant |children| == i
      invariant !attached ==> children == node.children[..i] && FirstPathAmong(node, 0) == FirstPathAmong(node, i)
      invariant attached ==>
                  && FirstPathAmong(node, 0) == Some(path) && path != [] && path[0] < i
                  && children == node.children[..i][path[0] := AttachAt(node.children[path[0]], path[1..], page)]
    {
      var child := node.children[i];
      if attached {
        children := children + [child];
        continue;
      }
      var rebuilt;
      rebuilt, attached := AttachToFirstWebView(child, page);
      if attached {
        path := [i] + FirstPath(child).value;
        assert path[1..] == FirstPath(child).value;
      }
      children := children + [rebuilt];
    }
    if !attached {
      return node, false;
    }
    assert node.children[..|node.children|] == node.children;
    return node.(children := children), true;
  }

  // ---------------------------------------------------------------------------
  // Scaling
  // ---------------------------------------------------------------------------

  /** The quotient rounded toward zero. */
  function Truncated(a: int, b: int): int
    requires b > 0
  {
    if a >= 0 then a / b else -((-a) / b)
  }

  function Scaled(bounds: Bounds, frame: Bounds, page: Bounds): Bounds
    requires page.width > 0 && page.height > 0
  {
    Bounds(
      frame.x + Truncated((bounds.x - page.x) * frame.width, page.width),
      frame.y + Truncated((bounds.y - page.y) * frame.height, page.height),
      Truncated(bounds.width * frame.width, page.width),
      Truncated(bounds.height * frame.height, page.height))
  }

  function ScaledAttributes(attributes: map<string, string>, frame: Bounds, page: Bounds): map<string, string>
    requires page.width > 0 && page.height > 0
  {
    var bounds := ParseBounds(if "bounds" in attributes then attributes["bounds"] else "");
    if bounds.Some? then attributes["bounds" := FormatBounds(Scaled(bounds.value, frame, page))] else attributes
  }

  function ScaledTree(node: TreeNode, frame: Bounds, page: Bounds): TreeNode
    requires page.width > 0 && page.height > 0
  {
    TreeNode(
      ScaledAttributes(node.attributes, frame, page),
      seq(|node.children|, i requires 0 <= i < |node.children| => ScaledTree(node.children[i], frame, page)),
      node.flags)
  }

  method ScaleNode(node: TreeNode, frame: Bounds, page: Bounds) returns (placed: TreeNode)
    requires page.width > 0 && page.height > 0
    ensures placed == ScaledTree(node, frame, page)
    decreases node
  {
    hide Scaled, FormatBounds, ParseBounds;
    var attributes := node.attributes;
    var bounds := ParseBounds(Attribute(node, "bounds"));
    if bounds.Some? {
      attributes := attributes["bounds" := FormatBounds(Scaled(bounds.value, frame, page))];
    }
    var children: seq<TreeNode> := [];
    for i := 0 to |node.children|
      invariant |children| == i
      invariant forall j :: 0 <= j < i ==> children[j] == ScaledTree(node.children[j], frame, page)
    {
      var child := ScaleNode(node.children[i], frame, page);
      children := children + [child];
    }
    assert children == ScaledTree(node, frame, page).children;
    return TreeNode(attributes, children, node.flags);
  }

  datatype MergeError = WebViewBounds | PageBounds | EmptyPage

  /** The merged tree, or why there is none; a native tree without a WebView is returned as it is. */
  method MergeWebViewHierarchy(native: TreeNode, page: TreeNode) returns (merged: Result<TreeNode, MergeError>)
    ensures merged == Merged(native, page)
  {
    hide ParseBounds, ScaledTree, AttachAt;
    var target := FindWebView(native);
    FoundAtFirstPath(native);
    FirstIsThere(native);
    if target.None? {
      return Success(native);
    }
    var frame := ParseBounds(Attribute(target.value, "bounds"));
    if frame.None? {
      return Failure(WebViewBounds);
    }
    var pageBounds := ParseBounds(Attribute(page, "bounds"));
    if pageBounds.None? {
      return Failure(PageBounds);
    }
    if pageBounds.value.width <= 0 || pageBounds.value.height <= 0 {
      return Failure(EmptyPage);
    }
    var placed := ScaleNode(page, frame.value, pageBounds.value);
    var result, _ := AttachToFirstWebView(native, placed);
    return Success(result);
  }

  /** What merging yields, by the path of the first WebView. */
  function Merged(native: TreeNode, page: TreeNode): Result<TreeNode, MergeError> {
    match FirstPath(native)
    case None => Success(native)
    case Some(path) =>
      var target := At(native, path);
      var frame := ParseBounds(if target.Some? then Attribute(target.value, "bounds") else "");
      var bounds := ParseBounds(Attribute(page, "bounds"));
      if frame.None? then Failure(WebViewBounds)
      else if bounds.None? then Failure(PageBounds)
      else if bounds.value.width <= 0 || bounds.value.height <= 0 then Failure(EmptyPage)
      else Success(AttachAt(native, path, ScaledTree(page, frame.value, bounds.value)))
  }

  lemma {:induction false} FoundAtFirstPath(node: TreeNode)
    ensures FindWebView(node) == if FirstPath(node).Some? then At(node, FirstPath(node).value) else None
    decreases node, |node.children| + 2
  {
    if !IsWebView(node) {
      FoundAmong(node, 0);
    }
  }

  lemma {:induction false} FoundAmong(node: TreeNode, i: nat)
    requires i <= |node.children|
    ensures FindAmong(node, i) == if FirstPathAmong(node, i).Some? then At(node, FirstPathAmong(node, i).value)
            else None
    ensures FindAmong(node, i).Some? <==> FirstPathAmong(node, i).Some?
    decreases node, |node.children| - i + 1
  {
    if i < |node.children| {
      FoundAtFirstPath(node.children[i]);
      FirstIsThere(node.children[i]);
      FoundAmong(node, i + 1);
    }
  }

  /** The first path leads to a WebView. */
  lemma {:induction false} FirstIsThere(node: TreeNode)
    ensures FirstPath(node).Some? ==>
              At(node, FirstPath(node).value).Some? && IsWebView(At(node, FirstPath(node).value).value)
    decreases node, |node.children| + 2
  {
    if !IsWebView(node) {
      FirstAmongIsThere(node, 0);
    }
  }

  lemma {:induction false} FirstAmongIsThere(node: TreeNode, i: nat)
    requires i <= |node.children|
    ensures FirstPathAmong(node, i).Some? ==>
              At(node, FirstPathAmong(node, i).value).Some? && IsWebView(At(node, FirstPathAmong(node, i).value).value)
    decreases node, |node.children| - i + 1
  {
    if i < |node.children| {
      FirstIsThere(node.children[i]);
      FirstAmongIsThere(node, i + 1);
    }
  }
}
