/**
 * Cutting the loaded numbers into files (bot.py `generate_vcfs`) and the
 * ten-contact preview (bot.py `preview_vcf`).
 *
 * The archive the bot sends is modelled as the ordered list of the
 * (file name, file content) pairs written into it.
 */
module Split {
  import opened Wrappers
  import opened Strings
  import opened Numbers
  import opened VCard

  function Min(a: int, b: int): int {
    if a <= b then a else b
  }

  /** The already-rendered settings that generation reads. */
  datatype Layout = Layout(
    perFile: nat,
    vcfPrefix: string,
    vcfStart: nat,
    contactPrefix: string,
    contactStart: nat)

  /** One entry of the archive. */
  datatype VcfFile = VcfFile(name: string, content: string)

  /** The cards of a run of numbers whose labels count up from `start`:
      `FN:{prefix}{num}`, `TEL:` the `+`-normalised number. */
  function Labelled(prefix: string, start: nat, nums: seq<string>): seq<Card>
    decreases |nums|
  {
    if |nums| == 0 then []
    else [Card(prefix + NatToString(start), Normalize(nums[0]))] + Labelled(prefix, start + 1, nums[1..])
  }

  /** The j-th card of a run is labelled `prefix + str(start + j)` and carries
      the j-th number with a `+` in front. */
  lemma {:induction false} LabelledAt(prefix: string, start: nat, nums: seq<string>)
    ensures |Labelled(prefix, start, nums)| == |nums|
    ensures forall j :: 0 <= j < |nums| ==>
      Labelled(prefix, start, nums)[j] == Card(prefix + NatToString(start + j), Normalize(nums[j]))
    decreases |nums|
  {
    if |nums| > 0 {
      LabelledAt(prefix, start + 1, nums[1..]);
      var r := Labelled(prefix, start, nums);
      forall j | 1 <= j < |nums|
        ensures r[j] == Card(prefix + NatToString(start + j), Normalize(nums[j]))
      {
        assert r[j] == Labelled(prefix, start + 1, nums[1..])[j - 1];
      }
    }
  }

  /** Numbering runs on across a split: the second part continues where the
      first stopped. */
  lemma {:induction false} LabelledAppend(prefix: string, start: nat, a: seq<string>, b: seq<string>)
    ensures Labelled(prefix, start, a + b) == Labelled(prefix, start, a) + Labelled(prefix, start + |a|, b)
    decreases |a|
  {
    if |a| == 0 {
      assert a + b == b;
    } else {
      assert (a + b)[1..] == a[1..] + b;
      LabelledAppend(prefix, start + 1, a[1..], b);
    }
  }

  /** Every TEL value written starts with `+`. */
  lemma LabelledTelPlus(prefix: string, start: nat, nums: seq<string>)
    ensures forall j :: 0 <= j < |Labelled(prefix, start, nums)| ==> StartsWithPlus(Labelled(prefix, start, nums)[j].tel)
  {
    LabelledAt(prefix, start, nums);
  }

  /** The cards of numbers without `\n`, under a label prefix without `\n`,
      can all be decoded again. */
  lemma LabelledDecodable(prefix: string, start: nat, nums: seq<string>)
    requires '\n' !in prefix
    requires forall j :: 0 <= j < |nums| ==> '\n' !in nums[j]
    ensures forall j :: 0 <= j < |Labelled(prefix, start, nums)| ==> Decodable(Labelled(prefix, start, nums)[j])
  {
    LabelledAt(prefix, start, nums);
    forall j | 0 <= j < |nums|
      ensures Decodable(Labelled(prefix, start, nums)[j])
    {
      var fn := prefix + NatToString(start + j);
      assert forall c :: c in fn ==> c in prefix || c in NatToString(start + j);
      assert '\n' !in NatToString(start + j);
    }
  }

  /** `[xs[i:i+k] for i in range(0, len(xs), k)]`. */
  function Chunks(xs: seq<string>, k: nat): seq<seq<string>>
    requires k > 0
    decreases |xs|
  {
    if |xs| == 0 then []
    else if |xs| <= k then [xs]
    else [xs[..k]] + Chunks(xs[k..], k)
  }

  function Flatten(xss: seq<seq<string>>): seq<string>
    decreases |xss|
  {
    if |xss| == 0 then [] else xss[0] + Flatten(xss[1..])
  }

  lemma {:induction false} FlattenAppend(a: seq<seq<string>>, b: seq<seq<string>>)
    ensures Flatten(a + b) == Flatten(a) + Flatten(b)
    decreases |a|
  {
    if |a| == 0 {
      assert a + b == b;
    } else {
      assert (a + b)[1..] == a[1..] + b;
      FlattenAppend(a[1..], b);
    }
  }

  /** Putting the chunks back together in order gives the original list. */
  lemma {:induction false} ChunksFlatten(xs: seq<string>, k: nat)
    requires k > 0
    ensures Flatten(Chunks(xs, k)) == xs
    decreases |xs|
  {
    if |xs| > k {
      ChunksFlatten(xs[k..], k);
      assert xs[..k] + xs[k..] == xs;
    } else if |xs| > 0 {
      assert Flatten([xs]) == xs + Flatten([]);
    }
  }

  /** Every chunk but the last holds exactly k numbers; the last holds
      between 1 and k. */
  lemma {:induction false} ChunksSizes(xs: seq<string>, k: nat)
    requires k > 0
    ensures forall i :: 0 <= i < |Chunks(xs, k)| - 1 ==> |Chunks(xs, k)[i]| == k
    ensures |Chunks(xs, k)| > 0 ==> 1 <= |Chunks(xs, k)[|Chunks(xs, k)| - 1]| <= k
    ensures |xs| > 0 <==> |Chunks(xs, k)| > 0
    decreases |xs|
  {
    if |xs| > k {
      ChunksSizes(xs[k..], k);
      var ch := Chunks(xs, k);
      assert forall i :: 1 <= i < |ch| ==> ch[i] == Chunks(xs[k..], k)[i - 1];
    }
  }

  /** There are `ceil(n / k)` chunks, as many as `range(0, n, k)` has
      elements: `(c - 1) * k < n <= c * k`. */
  lemma {:induction false} ChunksCount(xs: seq<string>, k: nat)
    requires k > 0
    ensures |xs| == 0 ==> |Chunks(xs, k)| == 0
    ensures |xs| > 0 ==> (|Chunks(xs, k)| - 1) * k < |xs| <= |Chunks(xs, k)| * k
    decreases |xs|
  {
    var n := |xs|;
    if n > k {
      ChunksCount(xs[k..], k);
      var c' := |Chunks(xs[k..], k)|;
      assert |Chunks(xs, k)| == c' + 1;
      assert (c' + 1) * k == c' * k + k;
    }
  }

  /** The same count written as Python computes `len(range(0, n, k))`. */
  lemma ChunksCountDiv(xs: seq<string>, k: nat)
    requires k > 0
    ensures |Chunks(xs, k)| == (|xs| + k - 1) / k
  {
    ChunksCount(xs, k);
    var c := |Chunks(xs, k)|;
    var a := |xs| + k - 1;
    assert c * k <= a < c * k + k;
    var d := a / k;
    assert a == d * k + a % k;
    if d < c {
      MulLess(d, c, k);
    } else if d > c {
      MulLess(c, d, k);
    }
  }

  lemma MulLess(x: int, y: int, k: nat)
    requires x < y && k > 0
    ensures x * k + k <= y * k
  {
    var z := y - x - 1;
    assert y * k == x * k + k + z * k;
  }

  /** The numbering prefix of a file: when every earlier chunk is full, the
      numbers before chunk i number exactly i * k. */
  lemma {:induction false} FlattenFullPrefix(ch: seq<seq<string>>, k: nat, i: nat)
    requires i <= |ch|
    requires forall j :: 0 <= j < i ==> |ch[j]| == k
    ensures |Flatten(ch[..i])| == i * k
    decreases i
  {
    if i > 0 {
      FlattenFullPrefix(ch, k, i - 1);
      assert ch[..i] == ch[..i - 1] + [ch[i - 1]];
      FlattenAppend(ch[..i - 1], [ch[i - 1]]);
      assert Flatten([ch[i - 1]]) == ch[i - 1] + Flatten([]);
      assert i * k == (i - 1) * k + k;
    }
  }

  /** `f"{vcf_prefix}{file_num}.vcf"`. */
  function VcfName(prefix: string, num: nat): string {
    prefix + NatToString(num) + ".vcf"
  }

  /** Two file numbers give the same name only if they are the same number. */
  lemma VcfNameInjective(prefix: string, a: nat, b: nat)
    requires VcfName(prefix, a) == VcfName(prefix, b)
    ensures a == b
  {
    var x := NatToString(a);
    var y := NatToString(b);
    assert |x| == |y|;
    assert x == VcfName(prefix, a)[|prefix|..|prefix| + |x|];
    assert y == VcfName(prefix, b)[|prefix|..|prefix| + |y|];
    NatToStringInjective(a, b);
  }

  /** One pass of the outer loop of `generate_vcfs`: the file number, the
      number of the chunk's first contact, and the chunk. */
  datatype Pass = Pass(fileNum: nat, contactNum: nat, chunk: seq<string>)

  /** The passes made over a list of chunks: the file number counts up by one
      per chunk, the contact number by one per contact. */
  function Plan(ch: seq<seq<string>>, fileNum: nat, contactNum: nat): seq<Pass>
    decreases |ch|
  {
    if |ch| == 0 then []
    else [Pass(fileNum, contactNum, ch[0])] + Plan(ch[1..], fileNum + 1, contactNum + |ch[0]|)
  }

  lemma {:induction false} PlanLength(ch: seq<seq<string>>, fileNum: nat, contactNum: nat)
    ensures |Plan(ch, fileNum, contactNum)| == |ch|
    decreases |ch|
  {
    if |ch| > 0 {
      PlanLength(ch[1..], fileNum + 1, contactNum + |ch[0]|);
    }
  }

  /** Pass i writes chunk i as file number `fileNum + i`, its contacts
      numbered on from all the contacts of the chunks before it. */
  lemma {:induction false} PlanAt(ch: seq<seq<string>>, fileNum: nat, contactNum: nat, i: nat)
    requires i < |ch|
    ensures |Plan(ch, fileNum, contactNum)| == |ch|
    ensures Plan(ch, fileNum, contactNum)[i] == Pass(fileNum + i, contactNum + |Flatten(ch[..i])|, ch[i])
    decreases i
  {
    PlanLength(ch, fileNum, contactNum);
    if i > 0 {
      var rest := ch[1..];
      PlanAt(rest, fileNum + 1, contactNum + |ch[0]|, i - 1);
      assert ch[..i] == [ch[0]] + rest[..i - 1];
      assert Flatten(ch[..i]) == ch[0] + Flatten(rest[..i - 1]);
    } else {
      assert ch[..0] == [];
    }
  }

  /** The archive entry a pass writes: `f"{vcf_prefix}{file_num}.vcf"`
      holding the cards of its chunk. */
  function FileOf(vcfPrefix: string, contactPrefix: string, p: Pass): VcfFile {
    VcfFile(VcfName(vcfPrefix, p.fileNum), EncodeAll(Labelled(contactPrefix, p.contactNum, p.chunk)))
  }

  /** The archive entries written by a list of passes, in order. */
  function Written(ps: seq<Pass>, vcfPrefix: string, contactPrefix: string): seq<VcfFile>
    decreases |ps|
  {
    if |ps| == 0 then []
    else [FileOf(vcfPrefix, contactPrefix, ps[0])] + Written(ps[1..], vcfPrefix, contactPrefix)
  }

  lemma {:induction false} WrittenAt(ps: seq<Pass>, vcfPrefix: string, contactPrefix: string, i: nat)
    requires i < |ps|
    ensures |Written(ps, vcfPrefix, contactPrefix)| == |ps|
    ensures Written(ps, vcfPrefix, contactPrefix)[i] == FileOf(vcfPrefix, contactPrefix, ps[i])
    decreases i
  {
    WrittenLength(ps, vcfPrefix, contactPrefix);
    if i > 0 {
      WrittenAt(ps[1..], vcfPrefix, contactPrefix, i - 1);
    }
  }

  lemma {:induction false} WrittenLength(ps: seq<Pass>, vcfPrefix: string, contactPrefix: string)
    ensures |Written(ps, vcfPrefix, contactPrefix)| == |ps|
    decreases |ps|
  {
    if |ps| > 0 {
      WrittenLength(ps[1..], vcfPrefix, contactPrefix);
    }
  }

  /** One more pass writes one more entry at the end. */
  lemma {:induction false} WrittenSnoc(ps: seq<Pass>, p: Pass, vcfPrefix: string, contactPrefix: string)
    ensures Written(ps + [p], vcfPrefix, contactPrefix)
            == Written(ps, vcfPrefix, contactPrefix) + [FileOf(vcfPrefix, contactPrefix, p)]
    decreases |ps|
  {
    if |ps| > 0 {
      assert (ps + [p])[1..] == ps[1..] + [p];
      WrittenSnoc(ps[1..], p, vcfPrefix, contactPrefix);
    } else {
      assert ps + [p] == [p];
    }
  }

  /** The archive content read file after file. */
  function Contents(fs: seq<VcfFile>): string
    decreases |fs|
  {
    if |fs| == 0 then "" else fs[0].content + Contents(fs[1..])
  }

  /** Reading the files one after another gives the cards of all numbers in a
      single run: numbering does not restart at a file boundary. */
  lemma {:induction false} PlanContents(ch: seq<seq<string>>, vcfPrefix: string, fileNum: nat, contactPrefix: string, contactNum: nat)
    ensures Contents(Written(Plan(ch, fileNum, contactNum), vcfPrefix, contactPrefix))
            == EncodeAll(Labelled(contactPrefix, contactNum, Flatten(ch)))
    decreases |ch|
  {
    if |ch| > 0 {
      PlanContents(ch[1..], vcfPrefix, fileNum + 1, contactPrefix, contactNum + |ch[0]|);
      LabelledAppend(contactPrefix, contactNum, ch[0], Flatten(ch[1..]));
      EncodeAllAppend(Labelled(contactPrefix, contactNum, ch[0]), Labelled(contactPrefix, contactNum + |ch[0]|, Flatten(ch[1..])));
    }
  }

  /** The passes `generate_vcfs` makes over a list of numbers. */
  function Passes(nums: seq<string>, l: Layout): seq<Pass>
    requires l.perFile > 0
  {
    Plan(Chunks(nums, l.perFile), l.vcfStart, l.contactStart)
  }

  /** The archive for a list of numbers (the body of `generate_vcfs` once the
      list is known to be non-empty). */
  function Generate(nums: seq<string>, l: Layout): seq<VcfFile>
    requires l.perFile > 0
  {
    Written(Passes(nums, l), l.vcfPrefix, l.contactPrefix)
  }

  /** The archive holds ceil(n / k) files, one per chunk, and none at all
      exactly when there are no numbers. */
  lemma GenerateCount(nums: seq<string>, l: Layout)
    requires l.perFile > 0
    ensures |Generate(nums, l)| == |Chunks(nums, l.perFile)| == (|nums| + l.perFile - 1) / l.perFile
    ensures |nums| == 0 <==> Generate(nums, l) == []
  {
    ChunksCountDiv(nums, l.perFile);
    ChunksSizes(nums, l.perFile);
    PlanLength(Chunks(nums, l.perFile), l.vcfStart, l.contactStart);
    WrittenLength(Passes(nums, l), l.vcfPrefix, l.contactPrefix);
  }

  /** Pass i writes chunk i as file number `vcf_start + i` with contacts
      numbered from `contact_start + i * k`; every chunk but the last is full
      and the last holds between 1 and k numbers. */
  lemma GeneratePassAt(nums: seq<string>, l: Layout, i: nat)
    requires l.perFile > 0 && i < |Chunks(nums, l.perFile)|
    ensures |Passes(nums, l)| == |Chunks(nums, l.perFile)|
    ensures Passes(nums, l)[i] == Pass(l.vcfStart + i, l.contactStart + i * l.perFile, Chunks(nums, l.perFile)[i])
    ensures 1 <= |Chunks(nums, l.perFile)[i]| <= l.perFile
    ensures i < |Chunks(nums, l.perFile)| - 1 ==> |Chunks(nums, l.perFile)[i]| == l.perFile
  {
    var ch := Chunks(nums, l.perFile);
    ChunksSizes(nums, l.perFile);
    FlattenFullPrefix(ch, l.perFile, i);
    PlanAt(ch, l.vcfStart, l.contactStart, i);
  }

  /** File i of the archive is the entry pass i writes: named
      `f"{vcf_prefix}{vcf_start + i}.vcf"`, holding the cards of chunk i
      numbered from `contact_start + i * k`. */
  lemma GenerateFileAt(nums: seq<string>, l: Layout, i: nat)
    requires l.perFile > 0 && i < |Chunks(nums, l.perFile)|
    ensures |Generate(nums, l)| == |Chunks(nums, l.perFile)|
    ensures Generate(nums, l)[i].name == VcfName(l.vcfPrefix, l.vcfStart + i)
    ensures Generate(nums, l)[i].content
            == EncodeAll(Labelled(l.contactPrefix, l.contactStart + i * l.perFile, Chunks(nums, l.perFile)[i]))
  {
    GeneratePassAt(nums, l, i);
    WrittenAt(Passes(nums, l), l.vcfPrefix, l.contactPrefix, i);
  }

  lemma GenerateNameAt(nums: seq<string>, l: Layout, i: nat)
    requires l.perFile > 0 && i < |Generate(nums, l)|
    ensures Generate(nums, l)[i].name == VcfName(l.vcfPrefix, l.vcfStart + i)
  {
    GenerateCount(nums, l);
    GenerateFileAt(nums, l, i);
  }

  /** No two files of the archive share a name. */
  lemma GenerateNamesDistinct(nums: seq<string>, l: Layout)
    requires l.perFile > 0
    ensures forall i, j :: 0 <= i < j < |Generate(nums, l)| ==> Generate(nums, l)[i].name != Generate(nums, l)[j].name
  {
    GenerateCount(nums, l);
    var fs := Generate(nums, l);
    forall i, j | 0 <= i < j < |fs|
      ensures fs[i].name != fs[j].name
    {
      GenerateNameAt(nums, l, i);
      GenerateNameAt(nums, l, j);
      if fs[i].name == fs[j].name {
        VcfNameInjective(l.vcfPrefix, l.vcfStart + i, l.vcfStart + j);
      }
    }
  }

  /** The archive, read file after file, is the cards of all numbers in order
      with labels `contact_prefix + str(contact_start + j)`. */
  lemma GenerateContents(nums: seq<string>, l: Layout)
    requires l.perFile > 0
    ensures Contents(Generate(nums, l)) == EncodeAll(Labelled(l.contactPrefix, l.contactStart, nums))
  {
    PlanContents(Chunks(nums, l.perFile), l.vcfPrefix, l.vcfStart, l.contactPrefix, l.contactStart);
    ChunksFlatten(nums, l.perFile);
  }

  /** File i decodes to exactly the cards of chunk i: k of them, except in the
      last file, which has between 1 and k. */
  lemma GenerateFileCards(nums: seq<string>, l: Layout, i: nat)
    requires l.perFile > 0 && i < |Generate(nums, l)|
    requires '\n' !in l.contactPrefix
    requires forall j :: 0 <= j < |nums| ==> '\n' !in nums[j]
    ensures |Generate(nums, l)| == |Chunks(nums, l.perFile)|
    ensures Decode(Generate(nums, l)[i].content)
            == Some(Labelled(l.contactPrefix, l.contactStart + i * l.perFile, Chunks(nums, l.perFile)[i]))
    ensures 1 <= |Decode(Generate(nums, l)[i].content).value| <= l.perFile
    ensures i < |Generate(nums, l)| - 1 ==> |Decode(Generate(nums, l)[i].content).value| == l.perFile
  {
    var k := l.perFile;
    var ch := Chunks(nums, k);
    GenerateCount(nums, l);
    GeneratePassAt(nums, l, i);
    GenerateFileAt(nums, l, i);
    var start := l.contactStart + i * k;
    forall j | 0 <= j < |ch[i]|
      ensures '\n' !in ch[i][j]
    {
      ChunkMember(nums, k, i, j);
    }
    LabelledDecodable(l.contactPrefix, start, ch[i]);
    DecodeEncodeAll(Labelled(l.contactPrefix, start, ch[i]));
    LabelledAt(l.contactPrefix, start, ch[i]);
  }

  /** Every number in a chunk is one of the numbers that were cut up. */
  lemma {:induction false} ChunkMember(xs: seq<string>, k: nat, i: nat, j: nat)
    requires k > 0
    requires i < |Chunks(xs, k)| && j < |Chunks(xs, k)[i]|
    ensures Chunks(xs, k)[i][j] in xs
    decreases |xs|
  {
    if |xs| > k && i > 0 {
      ChunkMember(xs[k..], k, i - 1, j);
    }
  }

  /** The preview message: the cards of the first ten numbers at most,
      numbered from `contact_start` (bot.py `preview_vcf`). */
  function Preview(nums: seq<string>, l: Layout): string {
    EncodeAll(Labelled(l.contactPrefix, l.contactStart, nums[..Min(10, |nums|)]))
  }

  /** The preview is exactly what the archive begins with. */
  lemma PreviewIsPrefix(nums: seq<string>, l: Layout)
    requires l.perFile > 0
    ensures Preview(nums, l) <= Contents(Generate(nums, l))
  {
    var m := Min(10, |nums|);
    GenerateContents(nums, l);
    assert nums == nums[..m] + nums[m..];
    LabelledAppend(l.contactPrefix, l.contactStart, nums[..m], nums[m..]);
    EncodeAllAppend(Labelled(l.contactPrefix, l.contactStart, nums[..m]), Labelled(l.contactPrefix, l.contactStart + m, nums[m..]));
  }

  /** The preview holds min(10, n) cards, the first ones of the archive. */
  lemma PreviewCards(nums: seq<string>, l: Layout)
    requires '\n' !in l.contactPrefix
    requires forall j :: 0 <= j < |nums| ==> '\n' !in nums[j]
    ensures Decode(Preview(nums, l)) == Some(Labelled(l.contactPrefix, l.contactStart, nums[..Min(10, |nums|)]))
    ensures |Decode(Preview(nums, l)).value| == Min(10, |nums|)
  {
    var head := nums[..Min(10, |nums|)];
    LabelledDecodable(l.contactPrefix, l.contactStart, head);
    DecodeEncodeAll(Labelled(l.contactPrefix, l.contactStart, head));
    LabelledAt(l.contactPrefix, l.contactStart, head);
  }

  /** Where the loop of `generate_vcfs` stands at offset `i`: the chunks
      from `i` on are the one cut at `i` followed by those from `i + k` on. */
  lemma ChunksFrom(nums: seq<string>, k: nat, i: nat)
    requires k > 0 && i < |nums|
    ensures Chunks(nums[i..], k) == [nums[i..Min(i + k, |nums|)]] + Chunks(nums[Min(i + k, |nums|)..], k)
  {
    if |nums| - i > k {
      assert nums[i..][..k] == nums[i..i + k];
      assert nums[i..][k..] == nums[i + k..];
    } else {
      assert Min(i + k, |nums|) == |nums|;
      assert nums[i..|nums|] == nums[i..];
      assert nums[|nums|..] == [];
    }
  }

  /** The passes the outer loop of `generate_vcfs` still makes once it
      stands at offset `i` with counters `fileNum` and `contactNum`. */
  function PassesFrom(nums: seq<string>, k: nat, i: nat, fileNum: nat, contactNum: nat): seq<Pass>
    requires k > 0
    decreases |nums| - i
  {
    if i >= |nums| then []
    else
      [Pass(fileNum, contactNum, nums[i..Min(i + k, |nums|)])]
      + PassesFrom(nums, k, i + k, fileNum + 1, contactNum + Min(i + k, |nums|) - i)
  }

  /** What the loop still does from offset `i` on is the plan for the chunks
      of the numbers from `i` on. */
  lemma {:induction false} PassesFromChunks(nums: seq<string>, k: nat, i: nat, fileNum: nat, contactNum: nat)
    requires k > 0
    ensures PassesFrom(nums, k, i, fileNum, contactNum) == Plan(Chunks(nums[Min(i, |nums|)..], k), fileNum, contactNum)
    decreases |nums| - i
  {
    if i < |nums| {
      ChunksFrom(nums, k, i);
      PassesFromChunks(nums, k, i + k, fileNum + 1, contactNum + Min(i + k, |nums|) - i);
    } else {
      assert nums[|nums|..] == [];
    }
  }

  lemma SnocShift(done: seq<Pass>, p: Pass, later: seq<Pass>)
    ensures done + ([p] + later) == (done + [p]) + later
  {
  }

  /** The inner loop of `generate_vcfs`: one block per number of the chunk,
      `contact_num` counting up from `contactNum`. */
  method EncodeChunk(chunk: seq<string>, contactPrefix: string, contactNum: nat) returns (data: string, next: nat)
    ensures data == EncodeAll(Labelled(contactPrefix, contactNum, chunk))
    ensures next == contactNum + |chunk|
  {
    data := "";
    next := contactNum;
    var j := 0;
    while j < |chunk|
      invariant 0 <= j <= |chunk|
      invariant next == contactNum + j
      invariant data == EncodeAll(Labelled(contactPrefix, contactNum, chunk[..j]))
    {
      var n := chunk[j];
      if !(|n| > 0 && n[0] == '+') {
        n := "+" + n;
      }
      var card := Card(contactPrefix + NatToString(next), n);
      assert chunk[..j + 1] == chunk[..j] + [chunk[j]];
      LabelledAppend(contactPrefix, contactNum, chunk[..j], [chunk[j]]);
      assert Labelled(contactPrefix, next, [chunk[j]]) == [card];
      EncodeAllSnoc(Labelled(contactPrefix, contactNum, chunk[..j]), card);
      data := data + Encode(card);
      next := next + 1;
      j := j + 1;
    }
    assert chunk[..j] == chunk;
  }

  /** One pass of the outer loop body: the chunk's cards, then the entry
      `f"{vcf_prefix}{file_num}.vcf"` written with them. */
  method WriteChunk(chunk: seq<string>, vcfPrefix: string, fileNum: nat, contactPrefix: string, contactNum: nat)
    returns (file: VcfFile, next: nat)
    ensures file == FileOf(vcfPrefix, contactPrefix, Pass(fileNum, contactNum, chunk))
    ensures next == contactNum + |chunk|
  {
    var data;
    data, next := EncodeChunk(chunk, contactPrefix, contactNum);
    file := VcfFile(VcfName(vcfPrefix, fileNum), data);
  }

  /** The outer loop of `generate_vcfs`: files are cut at `i = 0, k, 2k, ...`,
      `file_num` counting up from `vcf_start`, `contact_num` running on. */
  method GenerateVcfs(nums: seq<string>, l: Layout) returns (files: seq<VcfFile>)
    requires l.perFile > 0
    ensures files == Generate(nums, l)
  {
    var k, vp, cp := l.perFile, l.vcfPrefix, l.contactPrefix;
    files := [];
    ghost var done: seq<Pass> := [];
    var contactNum := l.contactStart;
    var fileNum := l.vcfStart;
    var i := 0;
    while i < |nums|
      invariant contactNum == l.contactStart + Min(i, |nums|)
      invariant files == Written(done, vp, cp)
      invariant done + PassesFrom(nums, k, i, fileNum, contactNum) == PassesFrom(nums, k, 0, l.vcfStart, l.contactStart)
      decreases |nums| - i
    {
      var chunk := nums[i..Min(i + k, |nums|)];
      var file, next := WriteChunk(chunk, vp, fileNum, cp, contactNum);
      ghost var p := Pass(fileNum, contactNum, chunk);
      SnocShift(done, p, PassesFrom(nums, k, i + k, fileNum + 1, next));
      WrittenSnoc(done, p, vp, cp);
      files := files + [file];
      done := done + [p];
      contactNum := next;
      fileNum := fileNum + 1;
      i := i + k;
    }
    assert done == PassesFrom(nums, k, 0, l.vcfStart, l.contactStart);
    PassesFromChunks(nums, k, 0, l.vcfStart, l.contactStart);
    assert nums[0..] == nums;
  }
}
