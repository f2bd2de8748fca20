/**
 * Variant identifiers and genomic positions
 * (data/data_utils/computed_fields/variant_id.py): the contig without its
 * `chr` prefix, the `chrom-pos-ref-alt` id, the contig number and the
 * position on one axis (`xpos`).
 */
module VariantIds {
  import opened Wrappers
  import opened Strings

  /** `locus.contig.replace("^chr", "")` */
  function NormalizedContig(contig: string): (r: string)
    ensures "chr" <= contig ==> contig == "chr" + r
    ensures !("chr" <= contig) ==> r == contig
  {
    RemovePrefix(contig, "chr")
  }

  /** `chrom-pos-ref-alt`; `alleles[0]` and `alleles[1]` fail on an array with fewer than two alleles. */
  function VariantId(contig: string, position: nat, alleles: seq<string>): (r: Option<string>)
    ensures r.Some? <==> |alleles| >= 2
    ensures |alleles| >= 2 ==> r == Some(Join([NormalizedContig(contig), NatToString(position), alleles[0], alleles[1]], "-"))
  {
    if |alleles| < 2 then None
    else
      JoinFour(NormalizedContig(contig), NatToString(position), alleles[0], alleles[1]);
      Some(NormalizedContig(contig) + "-" + NatToString(position) + "-" + alleles[0] + "-" + alleles[1])
  }

  lemma JoinFour(a: string, b: string, c: string, d: string)
    ensures Join([a, b, c, d], "-") == a + "-" + b + "-" + c + "-" + d
  {
    assert [a, b, c, d][1..] == [b, c, d];
    assert [b, c, d][1..] == [c, d];
    assert [c, d][1..] == [d];
    assert Join([d], "-") == d;
    assert Join([c, d], "-") == c + "-" + d;
    assert Join([b, c, d], "-") == b + "-" + (c + "-" + d);
  }

  /**
   * A variant id splits back into its contig, position, reference and
   * alternate allele when none of them contains `-`.
   */
  lemma VariantIdSplits(contig: string, position: nat, alleles: seq<string>)
    requires |alleles| >= 2
    requires '-' !in NormalizedContig(contig) && '-' !in alleles[0] && '-' !in alleles[1]
    ensures var parts := Split(VariantId(contig, position, alleles).value, "-");
            |parts| == 4 && parts[0] == NormalizedContig(contig) && parts[2] == alleles[0] && parts[3] == alleles[1] &&
            AllDigits(parts[1]) && ParseDigits(parts[1]) == position
  {
    var pieces := [NormalizedContig(contig), NatToString(position), alleles[0], alleles[1]];
    var digits := NatToString(position);
    assert forall k | 0 <= k < |pieces| :: "-"[0] !in pieces[k];
    SplitJoin(pieces, "-");
    ParseNatToString(position);
  }

  /** A contig with and without the `chr` prefix names the same variant. */
  lemma ChrPrefixIgnored(contig: string, position: nat, alleles: seq<string>)
    requires !("chr" <= contig)
    ensures VariantId("chr" + contig, position, alleles) == VariantId(contig, position, alleles)
    ensures ContigNumber("chr" + contig) == ContigNumber(contig)
    ensures XPosition("chr" + contig, position) == XPosition(contig, position)
  {
    assert "chr" <= "chr" + contig;
    assert NormalizedContig("chr" + contig) == contig;
  }

  /** The largest value `hl.int` reads: a contig number is a 32-bit integer. */
  const Int32Max: nat := 0x7fff_ffff

  /**
   * `contig_number`: X is 23, Y is 24, a contig starting with M is 25, and
   * any other contig is read as a decimal integer, which fails (`None`) on
   * anything but digits, on a value beyond 32 bits and on the empty contig.
   */
  function ContigNumber(contig: string): (r: Option<nat>)
    ensures var c := NormalizedContig(contig);
            (c == "X" ==> r == Some(23)) && (c == "Y" ==> r == Some(24)) &&
            (c != "X" && c != "Y" && c != [] && c[0] == 'M' ==> r == Some(25)) &&
            (c != "X" && c != "Y" && c != [] && c[0] != 'M' ==>
               r == if AllDigits(c) && ParseDigits(c) <= Int32Max then Some(ParseDigits(c)) else None) &&
            (c == [] ==> r == None)
    ensures r.Some? ==> r.value <= Int32Max
  {
    var c := NormalizedContig(contig);
    if c == "X" then Some(23)
    else if c == "Y" then Some(24)
    else if c == [] then None
    else if c[0] == 'M' then Some(25)
    else if AllDigits(c) && ParseDigits(c) <= Int32Max then Some(ParseDigits(c))
    else None
  }

  const PositionScale: nat := 1_000_000_000

  /** `x_position`: `contig_number * 10**9 + position`, in 64 bits. */
  function XPosition(contig: string, position: nat): (r: Option<nat>)
    ensures r.Some? <==> ContigNumber(contig).Some?
    ensures r.Some? ==> r.value == ContigNumber(contig).value * PositionScale + position
  {
    match ContigNumber(contig)
    case Some(n) => Some(n * PositionScale + position)
    case None => None
  }

  /** With a 32-bit contig number and a 32-bit position the 64-bit product never wraps around. */
  lemma XPositionFits(contig: string, position: nat)
    requires position <= Int32Max && XPosition(contig, position).Some?
    ensures XPosition(contig, position).value < 0x8000_0000_0000_0000
  {
    var n := ContigNumber(contig).value;
    assert n * PositionScale <= Int32Max * PositionScale by {
      MultiplyMonotone(n, Int32Max, PositionScale);
    }
  }

  lemma MultiplyMonotone(a: nat, b: nat, c: nat)
    requires a <= b
    ensures a * c <= b * c
  {
  }

  /** For positions below 10^9 the contig number and the position are read back from `xpos`. */
  lemma XPositionDecodes(contig: string, position: nat)
    requires position < PositionScale && XPosition(contig, position).Some?
    ensures XPosition(contig, position).value / PositionScale == ContigNumber(contig).value
    ensures XPosition(contig, position).value % PositionScale == position
  {
    var n := ContigNumber(contig).value;
    DivModUnique(n * PositionScale + position, n, position, PositionScale);
  }

  lemma DivModUnique(x: nat, q: nat, r: nat, d: nat)
    requires 0 <= r < d && x == q * d + r
    ensures x / d == q && x % d == r
  {
    var q', r' := x / d, x % d;
    assert x == q' * d + r' && 0 <= r' < d;
    if q' > q {
      MultiplyMonotone(q + 1, q', d);
      assert false;
    } else if q' < q {
      MultiplyMonotone(q' + 1, q, d);
      assert false;
    }
  }

  /**
   * For positions below 10^9, ordering by `xpos` is ordering by contig
   * number, then by position.
   */
  lemma XPositionOrder(c1: string, p1: nat, c2: string, p2: nat)
    requires p1 < PositionScale && p2 < PositionScale
    requires XPosition(c1, p1).Some? && XPosition(c2, p2).Some?
    ensures var n1, n2 := ContigNumber(c1).value, ContigNumber(c2).value;
            XPosition(c1, p1).value < XPosition(c2, p2).value <==> n1 < n2 || (n1 == n2 && p1 < p2)
  {
    var n1, n2 := ContigNumber(c1).value, ContigNumber(c2).value;
    if n1 < n2 {
      MultiplyMonotone(n1 + 1, n2, PositionScale);
    } else if n2 < n1 {
      MultiplyMonotone(n2 + 1, n1, PositionScale);
    }
  }
}
