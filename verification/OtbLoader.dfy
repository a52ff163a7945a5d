/** `OTB::Loader`: the stack parser over the mapped file and the property reader, in place on `Node` objects. */
module OtbLoader {
  import opened Bytes
  import opened Lists
  import opened OtbGrammar
  import opened PropStreams

  const IDENTIFIER_SIZE := 4
  const WILDCARD: bytes := [0, 0, 0, 0]

  datatype Result<+T> = Ok(value: T) | InvalidOTBFormat

  /** `propsBegin` and `propsEnd` are positions in the file, as the iterators are. */
  class Node {
    var nodeType: uint8
    var propsBegin: nat
    var propsEnd: nat
    var children: seq<Node>

    constructor ()
      ensures children == []
    {
      nodeType, propsBegin, propsEnd, children := 0, 0, 0, [];
    }
  }

  /** The node and everything below it, all of it in `nodes`, hold the document `d` of `file`. */
  ghost predicate Shows(n: Node, d: Doc, file: bytes, nodes: set<Node>)
    reads nodes
    decreases d
  {
    && n in nodes
    && n.nodeType == d.nodeType
    && n.propsBegin <= n.propsEnd <= |file|
    && file[n.propsBegin..n.propsEnd] == d.props
    && |n.children| == |d.kids| && NoDuplicates(n.children)
    && forall i | 0 <= i < |d.kids| :: Shows(n.children[i], d.kids[i].doc, file, nodes)
  }

  lemma {:induction false} ShowsMore(n: Node, d: Doc, file: bytes, nodes: set<Node>, more: set<Node>)
    requires Shows(n, d, file, nodes) && nodes <= more
    ensures Shows(n, d, file, more)
    decreases d
  {
    forall i | 0 <= i < |d.kids|
      ensures Shows(n.children[i], d.kids[i].doc, file, more)
    {
      ShowsMore(n.children[i], d.kids[i].doc, file, nodes, more);
    }
  }

  /** What the children of an open node look like: closed ones in `done`, then perhaps the open one. */
  ghost predicate ShowsKids(n: Node, ks: seq<Kid>, file: bytes, done: set<Node>)
    reads n, done
  {
    && |ks| <= |n.children|
    && forall i | 0 <= i < |ks| :: Shows(n.children[i], ks[i].doc, file, done)
  }

  /** The open node `n` agrees with the frame `f` when the scan stands at `at`. */
  ghost predicate ShowsOpen(n: Node, f: Frame, file: bytes, at: nat, done: set<Node>)
    requires at <= |file|
    reads n, done
  {
    && n.nodeType == f.nodeType
    && NoDuplicates(n.children)
    && ShowsKids(n, f.kids, file, done)
    && n.propsBegin <= at
    && if n.children == [] then file[n.propsBegin..at] == f.props
       else n.propsBegin <= n.propsEnd <= at && file[n.propsBegin..n.propsEnd] == f.props
  }

  /** The frames of the recogniser, innermost last. */
  function Frames(st: State): seq<Frame> {
    if st.Inside? then st.below + [st.top] else []
  }

  ghost predicate AllOpen(stack: seq<Node>, fs: seq<Frame>, file: bytes, at: nat, done: set<Node>)
    requires at <= |file| && |stack| == |fs|
    reads stack, done
  {
    forall i | 0 <= i < |stack| :: stack[i] !in done && ShowsOpen(stack[i], fs[i], file, at, done)
  }

  /** Each node of the stack is the last child of the one below it. */
  ghost predicate Linked(stack: seq<Node>, fs: seq<Frame>)
    requires |stack| == |fs|
    reads stack
  {
    && (forall i | 0 <= i < |stack| - 1 ::
          |stack[i].children| == |fs[i].kids| + 1 && stack[i].children[|fs[i].kids|] == stack[i + 1])
    && (stack != [] ==> |stack[|stack| - 1].children| == |fs[|stack| - 1].kids|)
  }

  /** The parse stack holds one open node a frame. */
  ghost predicate StackShows(stack: seq<Node>, st: State, file: bytes, at: nat, done: set<Node>)
    requires at <= |file|
    reads stack, done
  {
    && |stack| == |Frames(st)|
    && NoDuplicates(stack)
    && AllOpen(stack, Frames(st), file, at, done)
    && Linked(stack, Frames(st))
  }

  lemma StackLength(stack: seq<Node>, st: State, file: bytes, at: nat, done: set<Node>)
    requires at <= |file| && StackShows(stack, st, file, at, done)
    ensures |stack| == |Frames(st)|
  {
  }

  lemma StackStart(root: Node, file: bytes, at: nat)
    requires at <= |file| && root.propsBegin == at && root.children == []
    ensures StackShows([root], Inside([], Frame(root.nodeType, [], [])), file, at, {})
  {
  }

  /** Plain bytes and escape pairs move the scan and change no node. */
  lemma TextShows(stack: seq<Node>, st: State, file: bytes, at: nat, to: nat, done: set<Node>)
    requires at <= to <= |file| && StackShows(stack, st, file, at, done)
    ensures StackShows(stack, AddText(st, file[at..to]), file, to, done)
  {
    var fs, fs' := Frames(st), Frames(AddText(st, file[at..to]));
    forall i | 0 <= i < |stack|
      ensures ShowsOpen(stack[i], fs'[i], file, to, done)
    {
      var n := stack[i];
      if n.children == [] {
        assert file[n.propsBegin..at] + file[at..to] == file[n.propsBegin..to];
      }
    }
  }

  /** A node with a child keeps its properties whatever is read next, and more nodes may be complete. */
  lemma OpenStays(n: Node, f: Frame, file: bytes, at: nat, to: nat, done: set<Node>, more: set<Node>)
    requires at <= to <= |file| && done <= more
    requires n.children != [] && ShowsOpen(n, f, file, at, done)
    ensures ShowsOpen(n, f, file, to, more)
  {
    forall j | 0 <= j < |f.kids|
      ensures Shows(n.children[j], f.kids[j].doc, file, more)
    {
      ShowsMore(n.children[j], f.kids[j].doc, file, done, more);
    }
  }

  /** All open nodes but the innermost have a child. */
  lemma AllOpenStay(stack: seq<Node>, fs: seq<Frame>, file: bytes, at: nat, to: nat, done: set<Node>, more: set<Node>)
    requires at <= to <= |file| && done <= more && |stack| == |fs| && forall i | 0 <= i < |stack| :: stack[i] !in more
    requires AllOpen(stack, fs, file, at, done) && forall i | 0 <= i < |stack| :: stack[i].children != []
    ensures AllOpen(stack, fs, file, to, more)
  {
    forall i | 0 <= i < |stack|
      ensures ShowsOpen(stack[i], fs[i], file, to, more)
    {
      OpenStays(stack[i], fs[i], file, at, to, done, more);
    }
  }

  /** `propsEnd` is set at the first child or at the END, whichever comes first. */
  method EndProps(n: Node, it: nat, file: bytes, ghost f: Frame, ghost done: set<Node>)
    requires it <= |file| && n !in done && ShowsOpen(n, f, file, it, done)
    modifies n`propsEnd
    ensures ShowsOpen(n, f, file, it, done)
    ensures n.propsBegin <= n.propsEnd <= it && file[n.propsBegin..n.propsEnd] == f.props
  {
    if n.children == [] {
      n.propsEnd := it;
    }
  }

  /** All links of the stack but the innermost node's own. */
  ghost predicate LinkedBelow(stack: seq<Node>, fs: seq<Frame>)
    requires |stack| == |fs|
    reads stack
  {
    forall i | 0 <= i < |stack| - 1 ::
      |stack[i].children| == |fs[i].kids| + 1 && stack[i].children[|fs[i].kids|] == stack[i + 1]
  }

  /** Pushing a new last child of the innermost node. */
  lemma PushShows(stack: seq<Node>, child: Node, st: State, nodeType: uint8, file: bytes, at: nat, to: nat,
                  done: set<Node>)
    requires at <= to <= |file| && st.Inside? && |stack| == |Frames(st)| && NoDuplicates(stack + [child])
    requires AllOpen(stack, Frames(st), file, at, done) && LinkedBelow(stack, Frames(st))
    requires forall i | 0 <= i < |stack| :: stack[i].children != []
    requires stack[|stack| - 1].children == stack[|stack| - 1].children[..|st.top.kids|] + [child]
    requires |stack[|stack| - 1].children| == |st.top.kids| + 1
    requires child !in done && child.nodeType == nodeType && child.propsBegin == to && child.children == []
    ensures StackShows(stack + [child], OpenNode(st, nodeType), file, to, done)
  {
    AllOpenStay(stack, Frames(st), file, at, to, done, done);
    assert ShowsOpen(child, Frame(nodeType, [], []), file, to, done);
    assert Frames(OpenNode(st, nodeType)) == Frames(st) + [Frame(nodeType, [], [])];
  }

  method AttachChild(stack: seq<Node>, file: bytes, it: nat, ghost fs: seq<Frame>, ghost done: set<Node>)
    returns (child: Node)
    requires it + 1 < |file| && stack != [] && NoDuplicates(stack)
    requires |stack| == |fs| && AllOpen(stack, fs, file, it, done)
    modifies stack[|stack| - 1]
    ensures AllOpen(stack, fs, file, it, done)
    ensures fresh(child) && child.children == []
    ensures child.nodeType == file[it + 1] && child.propsBegin == it + 2
    ensures stack[|stack| - 1].children == old(stack[|stack| - 1].children) + [child]
  {
    hide Shows;
    var current := stack[|stack| - 1];
    EndProps(current, it, file, fs[|fs| - 1], done);
    child := new Node();
    current.children := current.children + [child];
    child.nodeType := file[it + 1];
    child.propsBegin := it + 2;
  }

  /** The START case for an open node: its properties end, and a new last child is opened. */
  method EnterChild(stack: seq<Node>, file: bytes, it: nat, ghost st: State, ghost done: set<Node>)
    returns (stack': seq<Node>)
    requires it + 1 < |file| && stack != [] && StackShows(stack, st, file, it, done)
    modifies stack[|stack| - 1]
    ensures StackShows(stack', OpenNode(st, file[it + 1]), file, it + 2, done)
    ensures |stack'| == |stack| + 1 && stack'[..|stack|] == stack && fresh(stack'[|stack|])
  {
    hide AllOpen;
    var child := AttachChild(stack, file, it, Frames(st), done);
    stack' := stack + [child];
    PushShows(stack, child, st, file[it + 1], file, it, it + 2, done);
  }

  lemma PopOpen(stack: seq<Node>, st: State, file: bytes, at: nat, to: nat, done: set<Node>)
    requires at <= to <= |file| && st.Inside? && StackShows(stack, st, file, at, done)
    ensures AllOpen(stack[..|stack| - 1], st.below, file, to, done + {stack[|stack| - 1]})
  {
    var top := |stack| - 1;
    assert AllOpen(stack[..top], st.below, file, at, done);
    AllOpenStay(stack[..top], st.below, file, at, to, done, done + {stack[top]});
  }

  lemma PopClosed(n: Node, top: Frame, file: bytes, at: nat, done: set<Node>)
    requires at <= |file| && ShowsOpen(n, top, file, at, done) && |n.children| == |top.kids|
    requires n.propsBegin <= n.propsEnd <= at && file[n.propsBegin..n.propsEnd] == top.props
    ensures Shows(n, Doc(top.nodeType, top.props, top.kids), file, done + {n})
  {
    forall j | 0 <= j < |top.kids|
      ensures Shows(n.children[j], top.kids[j].doc, file, done + {n})
    {
      ShowsMore(n.children[j], top.kids[j].doc, file, done, done + {n});
    }
  }

  /** The innermost node, complete, joins the children of the one below it. */
  lemma PopShows(stack: seq<Node>, st: State, file: bytes, at: nat, to: nat, done: set<Node>)
    requires at <= to <= |file| && st.Inside? && StackShows(stack, st, file, at, done)
    requires var n := stack[|stack| - 1];
      n.propsBegin <= n.propsEnd <= at && file[n.propsBegin..n.propsEnd] == st.top.props
    ensures StackShows(stack[..|stack| - 1], CloseNode(st), file, to, done + {stack[|stack| - 1]})
    ensures |stack| == 1 ==> Shows(stack[0], CloseNode(st).root, file, done + {stack[0]})
  {
    hide ShowsOpen;
    var top := |stack| - 1;
    assert ShowsOpen(stack[top], st.top, file, at, done);
    PopClosed(stack[top], st.top, file, at, done);
    PopOpen(stack, st, file, at, to, done);
    if top > 0 {
      PopKid(stack[top - 1], stack[top], st.below[top - 1], st.top, file, to, done + {stack[top]});
    }
  }

  lemma PopKid(up: Node, n: Node, f: Frame, top: Frame, file: bytes, at: nat, done: set<Node>)
    requires at <= |file| && ShowsOpen(up, f, file, at, done)
    requires |up.children| == |f.kids| + 1 && up.children[|f.kids|] == n
    requires Shows(n, Doc(top.nodeType, top.props, top.kids), file, done)
    ensures ShowsOpen(up, f.(kids := f.kids + [Kid(Doc(top.nodeType, top.props, top.kids), [])]), file, at, done)
  {
  }

  /** The END case: the innermost node is complete. */
  method LeaveNode(stack: seq<Node>, file: bytes, it: nat, ghost st: State, ghost done: set<Node>)
    returns (stack': seq<Node>)
    requires it < |file| && stack != [] && StackShows(stack, st, file, it, done)
    modifies stack[|stack| - 1]
    ensures stack' == stack[..|stack| - 1]
    ensures StackShows(stack', CloseNode(st), file, it + 1, done + {stack[|stack| - 1]})
    ensures |stack| == 1 ==> Shows(stack[0], CloseNode(st).root, file, done + {stack[0]})
  {
    hide Shows, NoDuplicates;
    EndProps(stack[|stack| - 1], it, file, st.top, done);
    stack' := stack[..|stack| - 1];
    PopShows(stack, st, file, it, it + 1, done);
  }

  class Loader {
    const fileContents: bytes
    const root: Node
    var propBuffer: bytes

    /** Long enough for an identifier and a smallest node and a byte more, as `Open` checks. */
    ghost predicate Valid() {
      |fileContents| > IDENTIFIER_SIZE + 3
    }

    constructor (contents: bytes)
      ensures fileContents == contents && fresh(root) && root.children == []
    {
      fileContents, propBuffer := contents, [];
      root := new Node();
    }

    /** The C++ constructor, which may throw. */
    static method Open(contents: bytes, accepted: bytes) returns (r: Result<Loader>)
      requires |accepted| == IDENTIFIER_SIZE
      ensures r.Ok? <==>
        && |contents| > IDENTIFIER_SIZE + 3
        && (contents[..IDENTIFIER_SIZE] == accepted || contents[..IDENTIFIER_SIZE] == WILDCARD)
      ensures r.Ok? ==>
        && fresh(r.value) && fresh(r.value.root) && r.value.Valid()
        && r.value.fileContents == contents && r.value.root.children == []
    {
      if |contents| <= IDENTIFIER_SIZE + 3 {
        return InvalidOTBFormat;
      }
      var identifier := contents[..IDENTIFIER_SIZE];
      if identifier != accepted && identifier != WILDCARD {
        return InvalidOTBFormat;
      }
      var loader := new Loader(contents);
      return Ok(loader);
    }

    method ParseTree() returns (r: Result<Node>)
      requires Valid() && root.children == []
      modifies root
      ensures match Parse(fileContents[IDENTIFIER_SIZE..])
              case Closed(d, _) =>
                r == Ok(root) && exists nodes: set<Node> :: fresh(nodes - {root}) && Shows(root, d, fileContents, nodes)
              case _ => r == InvalidOTBFormat
    {
      hide StackShows, Shows, Run, AddText, OpenNode, CloseNode;
      var file := fileContents;
      ghost var input := file[IDENTIFIER_SIZE..];
      var it := IDENTIFIER_SIZE;
      if file[it] != START {
        return InvalidOTBFormat;
      }
      it := it + 1;
      root.nodeType := file[it];
      it := it + 1;
      root.propsBegin := it;
      var stack := [root];
      ghost var st := Inside([], Frame(root.nodeType, [], []));
      ghost var done: set<Node> := {};
      assert input[2..] == file[it..];
      StackStart(root, file, it);

      while it < |file|
        invariant IDENTIFIER_SIZE + 2 <= it <= |file|
        invariant st != Bad && Parse(input) == Run(st, file[it..])
        invariant StackShows(stack, st, file, it, done)
        invariant st.Closed? ==> Shows(root, st.root, file, done)
        invariant fresh(done - {root})
        invariant forall i | 0 <= i < |stack| :: stack[i] == root || fresh(stack[i])
        invariant stack != [] ==> stack[0] == root
      {
        StackLength(stack, st, file, it, done);
        ghost var s := file[it..];
        if file[it] == START {
          if stack == [] {
            FailStep(st, s);
            return InvalidOTBFormat;
          }
          if it + 1 == |file| {
            FailStep(st, s);
            return InvalidOTBFormat;
          }
          OpenStep(st, s);
          assert s[2..] == file[it + 2..];
          stack := EnterChild(stack, file, it, st, done);
          st := OpenNode(st, file[it + 1]);
          it := it + 1;
        } else if file[it] == END {
          if stack == [] {
            FailStep(st, s);
            return InvalidOTBFormat;
          }
          CloseStep(st, s);
          assert s[1..] == file[it + 1..];
          ghost var current := stack[|stack| - 1];
          stack := LeaveNode(stack, file, it, st, done);
          st := CloseNode(st);
          done := done + {current};
        } else if file[it] == ESCAPE {
          if it + 1 == |file| {
            FailStep(st, s);
            return InvalidOTBFormat;
          }
          TextStep(st, s, 2);
          assert s[2..] == file[it + 2..] && s[..2] == file[it..it + 2];
          TextShows(stack, st, file, it, it + 2, done);
          st := AddText(st, s[..2]);
          it := it + 1;
        } else {
          TextStep(st, s, 1);
          assert s[1..] == file[it + 1..] && s[..1] == file[it..it + 1];
          TextShows(stack, st, file, it, it + 1, done);
          st := AddText(st, s[..1]);
        }
        it := it + 1;
      }
      StackLength(stack, st, file, it, done);
      RunDone(st);
      assert file[it..] == [];
      if stack != [] {
        return InvalidOTBFormat;
      }
      return Ok(root);
    }

    /** The unescaped property bytes of a node, in `propBuffer`; false for a node without any. */
    method GetProps(node: Node, props: PropStream) returns (ok: bool)
      requires node.propsBegin <= node.propsEnd <= |fileContents|
      modifies this`propBuffer, props
      ensures ok <==> node.propsBegin < old(node.propsEnd)
      ensures ok ==> props.Valid() && props.Rest() == Unescape(fileContents[old(node.propsBegin)..old(node.propsEnd)])
    {
      var from, to := node.propsBegin, node.propsEnd;
      if from == to {
        return false;
      }
      propBuffer := [];
      var lastEscaped := false;
      ghost var raw := fileContents[from..to];
      for i := from to to
        invariant propBuffer + Unescape(fileContents[i..to], lastEscaped) == Unescape(raw)
      {
        assert fileContents[i..to][1..] == fileContents[i + 1..to];
        lastEscaped := fileContents[i] == ESCAPE && !lastEscaped;
        if !lastEscaped {
          propBuffer := propBuffer + [fileContents[i]];
        }
      }
      props.Init(propBuffer);
      ok := true;
    }
  }
}
