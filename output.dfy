/** The output writer: every `writer.write(s)` appends `s` to `content`. */
module Output {
  import opened Wrappers

  class Sink {
    var content: string

    constructor ()
      ensures content == ""
    {
      content := "";
    }

    method Write(s: string)
      modifies this
      ensures content == old(content) + s
    {
      content := content + s;
    }
  }

  /** What a writing step leaves behind: the text it wrote, and the error
      that stopped it, if any (the file keeps what was written before it). */
  datatype Written = Written(text: string, failure: Option<Error>)

  /** One block per call, each written by `block`. */
  function Each<A>(block: A -> Written, calls: seq<A>): (r: seq<Written>)
    ensures |r| == |calls| && forall k :: 0 <= k < |calls| ==> r[k] == block(calls[k])
  {
    seq(|calls|, k requires 0 <= k < |calls| => block(calls[k]))
  }

  lemma EachAppend<A>(block: A -> Written, x: seq<A>, y: seq<A>)
    ensures Each(block, x + y) == Each(block, x) + Each(block, y)
  {
    var a := Each(block, x + y);
    var b := Each(block, x) + Each(block, y);
    forall k | 0 <= k < |a| ensures a[k] == b[k] {
      if k < |x| {
        assert (x + y)[k] == x[k];
      } else {
        assert (x + y)[k] == y[k - |x|];
      }
    }
  }

  lemma EachPrefix<A>(block: A -> Written, calls: seq<A>, n: nat)
    requires n <= |calls|
    ensures Each(block, calls)[..n] == Each(block, calls[..n])
  {
  }

  /** Blocks written one after another; an exception in one block ends the
      file after that block's partial text. */
  function Chain(blocks: seq<Written>): (r: Written)
    decreases |blocks|
  {
    if |blocks| == 0 then Written("", None)
    else
      var prev := Chain(blocks[..|blocks| - 1]);
      var b := blocks[|blocks| - 1];
      if prev.failure.Some? then prev else Written(prev.text + b.text, b.failure)
  }

  /** The chain is written whole exactly when every block is. */
  lemma {:induction false} ChainSucceedsIff(blocks: seq<Written>)
    ensures Chain(blocks).failure.None? <==> forall k :: 0 <= k < |blocks| ==> blocks[k].failure.None?
    decreases |blocks|
  {
    if |blocks| > 0 {
      var n := |blocks| - 1;
      ChainSucceedsIff(blocks[..n]);
      assert forall k :: 0 <= k < n ==> blocks[k] == blocks[..n][k];
    }
  }

  /** A failing chain is cut at its first failing block, with that block's
      partial text last and its error reported. */
  lemma {:induction false} ChainStopsAtFirstFailure(blocks: seq<Written>)
    requires Chain(blocks).failure.Some?
    ensures exists f :: 0 <= f < |blocks| && blocks[f].failure.Some? &&
                        (forall k :: 0 <= k < f ==> blocks[k].failure.None?) &&
                        Chain(blocks) == Written(Chain(blocks[..f]).text + blocks[f].text, blocks[f].failure)
    decreases |blocks|
  {
    var n := |blocks| - 1;
    var init := blocks[..n];
    if Chain(init).failure.Some? {
      ChainStopsAtFirstFailure(init);
      var f :| 0 <= f < |init| && init[f].failure.Some? &&
               (forall k :: 0 <= k < f ==> init[k].failure.None?) &&
               Chain(init) == Written(Chain(init[..f]).text + init[f].text, init[f].failure);
      assert init[..f] == blocks[..f];
      assert forall k :: 0 <= k <= f ==> blocks[k] == init[k];
    } else {
      ChainSucceedsIff(init);
      assert forall k :: 0 <= k < n ==> blocks[k] == init[k];
    }
  }

  /** With every block written whole, the text is the blocks' texts in order. */
  function Texts(blocks: seq<Written>): string
    decreases |blocks|
  {
    if |blocks| == 0 then "" else Texts(blocks[..|blocks| - 1]) + blocks[|blocks| - 1].text
  }

  lemma {:induction false} ChainWhole(blocks: seq<Written>)
    requires forall k :: 0 <= k < |blocks| ==> blocks[k].failure.None?
    ensures Chain(blocks) == Written(Texts(blocks), None)
    decreases |blocks|
  {
    if |blocks| > 0 {
      ChainWhole(blocks[..|blocks| - 1]);
    }
  }

  lemma ChainAppendOne(blocks: seq<Written>, b: Written)
    requires Chain(blocks).failure.None?
    ensures Chain(blocks + [b]) == Written(Chain(blocks).text + b.text, b.failure)
  {
    assert (blocks + [b])[..|blocks|] == blocks;
  }

  /** Once a prefix has failed, nothing after it is written. */
  lemma {:induction false} ChainFailureSticks(prefix: seq<Written>, blocks: seq<Written>)
    requires |prefix| <= |blocks| && blocks[..|prefix|] == prefix
    requires Chain(prefix).failure.Some?
    ensures Chain(blocks) == Chain(prefix)
    decreases |blocks|
  {
    if |blocks| > |prefix| {
      var n := |blocks| - 1;
      assert blocks[..n][..|prefix|] == prefix;
      ChainFailureSticks(prefix, blocks[..n]);
    } else {
      assert blocks == prefix;
    }
  }

  /** Two chains written one after the other: the second is written only
      when the first finished without an error. */
  lemma {:induction false} ChainConcat(a: seq<Written>, b: seq<Written>)
    ensures Chain(a + b) ==
            if Chain(a).failure.Some? then Chain(a)
            else Written(Chain(a).text + Chain(b).text, Chain(b).failure)
    decreases |b|
  {
    if |b| == 0 {
      assert a + b == a;
    } else if Chain(a).failure.Some? {
      assert (a + b)[..|a|] == a;
      ChainFailureSticks(a, a + b);
    } else {
      var n := |b| - 1;
      ChainConcat(a, b[..n]);
      assert (a + b)[..|a + b| - 1] == a + b[..n];
      var pb := Chain(b[..n]);
      if pb.failure.None? {
        assert (Chain(a).text + pb.text) + b[n].text == Chain(a).text + (pb.text + b[n].text);
      }
    }
  }
}
