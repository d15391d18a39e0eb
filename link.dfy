/**
 * The site's `Link`: it classifies its target as an internal route, an
 * in-page anchor or an external address, lifts the props and the content
 * out of a child `<a>` so that anchors never nest, and merges the class
 * names.
 */
module Link {
  import opened Wrappers
  import opened Strings
  import opened Props

  /** A React child: nothing (`null`/`undefined`), text, or an element with its props and its own children. */
  datatype Node = Nothing | TextNode(s: string) | Element(tag: string, props: Props, inner: Node)

  /** What `Link` renders: Next's router link or a plain `<a>`, with its props and its content. */
  datatype Tag = NextLink | A
  datatype Rendered = Rendered(tag: Tag, props: Props, content: Node)

  datatype Kind = Internal | Anchor | External

  /** `typeof href === 'string' ? href : href?.pathname || ''` */
  function HrefText(href: Value): (r: string)
    ensures href.Text? ==> r == href.s
    ensures href.Route? && href.pathname.Some? ==> r == href.pathname.value
    ensures !href.Text? && !(href.Route? && href.pathname.Some?) ==> r == ""
  {
    match href
    case Text(s) => s
    case Route(pathname) => if pathname.Some? then pathname.value else ""
    case _ => ""
  }

  /** Internal when the target starts with '/', an anchor when it starts with '#', external otherwise. */
  function Classify(h: string): (k: Kind)
    ensures k == Internal <==> StartsWith(h, "/")
    ensures k == Anchor <==> StartsWith(h, "#")
    ensures k == External <==> !StartsWith(h, "/") && !StartsWith(h, "#")
  {
    if StartsWith(h, "/") then Internal
    else if StartsWith(h, "#") then Anchor
    else External
  }

  /** A route object without a pathname is treated as an external link to the empty address. */
  lemma MissingPathnameIsExternal()
    ensures HrefText(Route(None)) == ""
    ensures Classify(HrefText(Route(None))) == External
  {
  }

  /** A string class name; any other value counts as no class. */
  function ClassText(v: Value): string {
    if v.Text? then v.s else ""
  }

  /** `[a, b].filter(Boolean).join(' ')` */
  function JoinClasses(a: string, b: string): (r: string)
    ensures a == "" ==> r == b
    ensures a != "" && b == "" ==> r == a
    ensures a != "" && b != "" ==> r == a + " " + b
  {
    var kept := NonEmpty([a, b]);
    NonEmptyCons(a, [b]);
    NonEmptyCons(b, []);
    assert kept == (if a == "" then [] else [a]) + (if b == "" then [] else [b]);
    JoinPair(a, b, " ");
    Join(kept, " ")
  }

  /** The child is an `<a>` element whose props are lifted. */
  predicate ChildIsAnchor(children: Node) {
    children.Element? && children.tag == "a"
  }

  /** The caller's props other than the ones `Link` names. */
  function CallerRest(props: Props): Props {
    Rest(props, {"href", "children", "className"})
  }

  /** The props of a child `<a>` other than its class and its children; none for any other child. */
  function ChildRest(children: Node): (r: Props)
    ensures ChildIsAnchor(children) ==> r.Keys == children.props.Keys - {"children", "className"}
    ensures ChildIsAnchor(children) ==> forall k :: k in r ==> r[k] == children.props[k]
    ensures !ChildIsAnchor(children) ==> r == map[]
  {
    if ChildIsAnchor(children) then Rest(children.props, {"children", "className"}) else map[]
  }

  /** The final class: "break-words", then the caller's class and a child `<a>`'s class, the empty ones left out. */
  function ClassName(props: Props, children: Node): (r: string)
    ensures StartsWith(r, "break-words")
    ensures !ChildIsAnchor(children) ==> r == JoinClasses("break-words", ClassText(Get(props, "className")))
    ensures ChildIsAnchor(children) ==>
      r == JoinClasses("break-words", JoinClasses(ClassText(Get(props, "className")), ClassText(Get(children.props, "className"))))
  {
    var parent := ClassText(Get(props, "className"));
    var merged := if ChildIsAnchor(children) then JoinClasses(parent, ClassText(Get(children.props, "className"))) else parent;
    JoinClasses("break-words", merged)
  }

  /** What a prop of the rendered element is: the caller's, else the child's, else what `Link` sets itself. */
  function Lifted(props: Props, children: Node, name: string, own: Value): Value {
    if name in CallerRest(props) then CallerRest(props)[name]
    else if name in ChildRest(children) then ChildRest(children)[name]
    else own
  }

  /** The props every branch shares: the merged class, then the child's props, then the caller's. */
  function SharedProps(props: Props, children: Node): (r: Props)
    ensures "className" in r && r["className"] == Text(ClassName(props, children))
    ensures forall k :: k in r && k != "className" ==> k in CallerRest(props) || k in ChildRest(children)
    ensures forall k :: k in CallerRest(props) ==> k in r && r[k] == CallerRest(props)[k]
    ensures forall k :: k in ChildRest(children) && k !in CallerRest(props) ==> k in r && r[k] == ChildRest(children)[k]
  {
    map["className" := Text(ClassName(props, children))] + ChildRest(children) + CallerRest(props)
  }

  /**
   * `Link`: the child `<a>` is unwrapped step by step, then one of the
   * three branches renders.
   */
  method Render(props: Props, children: Node) returns (out: Rendered)
    ensures out.tag == NextLink <==> Classify(HrefText(Get(props, "href"))) == Internal
    ensures "className" in out.props && out.props["className"] == Text(ClassName(props, children))
    ensures forall k :: k in CallerRest(props) ==> k in out.props && out.props[k] == CallerRest(props)[k]
    ensures forall k :: k in ChildRest(children) && k !in CallerRest(props) ==> k in out.props && out.props[k] == ChildRest(children)[k]
    ensures "href" in out.props
    ensures Classify(HrefText(Get(props, "href"))) == Internal ==> out.props["href"] == Lifted(props, children, "href", Get(props, "href"))
    ensures Classify(HrefText(Get(props, "href"))) != Internal ==> out.props["href"] == Lifted(props, children, "href", Text(HrefText(Get(props, "href"))))
    ensures Classify(HrefText(Get(props, "href"))) == External ==>
      && "target" in out.props && out.props["target"] == Lifted(props, children, "target", Text("_blank"))
      && "rel" in out.props && out.props["rel"] == Lifted(props, children, "rel", Text("noopener noreferrer"))
    ensures Classify(HrefText(Get(props, "href"))) != External ==>
      && ("target" in out.props <==> "target" in CallerRest(props) || "target" in ChildRest(children))
      && ("rel" in out.props <==> "rel" in CallerRest(props) || "rel" in ChildRest(children))
    ensures var content := if ChildIsAnchor(children) then children.inner else children;
      out.content == if content.Nothing? then TextNode("Link") else content
    ensures forall k :: k in out.props ==>
      || k == "className" || k == "href" || k in CallerRest(props) || k in ChildRest(children)
      || (Classify(HrefText(Get(props, "href"))) == External && (k == "target" || k == "rel"))
  {
    var href := Get(props, "href");
    var className := ClassText(Get(props, "className"));
    var rest := CallerRest(props);
    var hrefStr := HrefText(href);
    var isInternalLink := StartsWith(hrefStr, "/");
    var isAnchorLink := StartsWith(hrefStr, "#");

    var childIsAnchor := false;
    var childAnchorProps: Props := map[];
    var childContent := children;
    if children.Element? && children.tag == "a" {
      childIsAnchor := true;
      var childClass := ClassText(Get(children.props, "className"));
      childContent := children.inner;
      childAnchorProps := Rest(children.props, {"children", "className"});
      className := JoinClasses(className, childClass);
    }
    assert childAnchorProps == ChildRest(children);
    assert JoinClasses("break-words", className) == ClassName(props, children);

    var anchorProps := map["className" := Text(JoinClasses("break-words", className))] + childAnchorProps + rest;
    assert anchorProps == SharedProps(props, children);
    var content := if childContent.Nothing? then TextNode("Link") else childContent;
    var own: Props;
    if isInternalLink {
      own := map["href" := href];
      out := Rendered(NextLink, own + anchorProps, content);
    } else if isAnchorLink {
      own := map["href" := Text(hrefStr)];
      out := Rendered(A, own + anchorProps, content);
    } else {
      own := map["href" := Text(hrefStr), "target" := Text("_blank"), "rel" := Text("noopener noreferrer")];
      out := Rendered(A, own + anchorProps, content);
    }
    SharedLookup(own, props, children, "href");
    SharedLookup(own, props, children, "target");
    SharedLookup(own, props, children, "rel");
    SharedKeys(own, props, children);
  }

  /** A branch's props hold its own keys, the class, and the caller's and the child's keys, and nothing else. */
  lemma SharedKeys(own: Props, props: Props, children: Node)
    ensures forall k :: k in own + SharedProps(props, children) ==>
      k in own || k == "className" || k in CallerRest(props) || k in ChildRest(children)
  {
  }

  /**
   * A prop other than the class, in a branch's own props overlaid by the
   * shared ones: present when either has it, and then the caller's, else
   * the child's, else the branch's own value.
   */
  lemma SharedLookup(own: Props, props: Props, children: Node, name: string)
    requires name != "className"
    ensures var all := own + SharedProps(props, children);
      && (name in all <==> name in own || name in CallerRest(props) || name in ChildRest(children))
      && (name in own ==> all[name] == Lifted(props, children, name, own[name]))
  {
  }

  /** With both class names given, the child's class follows the caller's. */
  lemma MergedClasses(parent: string, child: string)
    requires parent != "" && child != ""
    ensures JoinClasses("break-words", JoinClasses(parent, child)) == "break-words " + parent + " " + child
  {
  }

  /** With no class given anywhere, the class is exactly "break-words". */
  lemma BareClass(props: Props, children: Node)
    requires ClassText(Get(props, "className")) == ""
    requires !ChildIsAnchor(children) || ClassText(Get(children.props, "className")) == ""
    ensures ClassName(props, children) == "break-words"
  {
  }
}
