/**
  The two identifier recognisers and the digest recogniser.

  `identity.rs` accepts node ids with a single pass that carries one flag; `delivery_config.rs`
  accepts route ids with a conjunction of substring tests. Both loops are proved against the
  position-wise grammar `IsNodeId`.
 */
module Identifiers {
  predicate IsAlphanumeric(c: char) {
    'a' <= c <= 'z' || '0' <= c <= '9'
  }

  predicate IsSeparator(c: char) {
    c == '-' || c == '_'
  }

  /** The identifier grammar, stated position by position. */
  predicate IsNodeId(s: string) {
    && 1 <= |s| <= 64
    && (forall i :: 0 <= i < |s| ==> IsAlphanumeric(s[i]) || IsSeparator(s[i]))
    && IsAlphanumeric(s[0]) && IsAlphanumeric(s[|s| - 1])
    && (forall i :: 0 <= i < |s| - 1 ==> IsAlphanumeric(s[i]) || IsAlphanumeric(s[i + 1]))
  }

  predicate IsLowerHex(c: char) {
    '0' <= c <= '9' || 'a' <= c <= 'f'
  }

  predicate IsSha256(s: string) {
    |s| == 64 && forall i :: 0 <= i < |s| ==> IsLowerHex(s[i])
  }

  type NodeId = s: string | IsNodeId(s) witness "a"
  type Digest = s: string | IsSha256(s) witness seq(64, _ => 'a')

  /** The flag-carrying single pass of `is_valid_node_id`. */
  method IsValidNodeId(value: string) returns (valid: bool)
    ensures valid <==> IsNodeId(value)
  {
    if |value| == 0 || |value| > 64 {
      return false;
    }
    var previousWasSeparator := true;
    for i := 0 to |value|
      invariant previousWasSeparator <==> i == 0 || IsSeparator(value[i - 1])
      invariant forall j :: 0 <= j < i ==> IsAlphanumeric(value[j]) || IsSeparator(value[j])
      invariant i > 0 ==> IsAlphanumeric(value[0])
      invariant forall j :: 0 <= j < i - 1 ==> IsAlphanumeric(value[j]) || IsAlphanumeric(value[j + 1])
    {
      var isAlphanumeric := IsAlphanumeric(value[i]);
      var isSeparator := IsSeparator(value[i]);
      if !isAlphanumeric && !isSeparator {
        return false;
      }
      if isSeparator && previousWasSeparator {
        return false;
      }
      previousWasSeparator := isSeparator;
    }
    return !previousWasSeparator;
  }

  predicate OccursAt(s: string, pattern: string, i: int) {
    0 <= i <= |s| - |pattern| && s[i..i + |pattern|] == pattern
  }

  predicate Contains(s: string, pattern: string) {
    exists i | 0 <= i <= |s| :: OccursAt(s, pattern, i)
  }

  /** The substring formulation of `valid_id`. */
  predicate ValidId(value: string) {
    && value != ""
    && |value| <= 64
    && (forall i :: 0 <= i < |value| ==> IsAlphanumeric(value[i]) || IsSeparator(value[i]))
    && IsAlphanumeric(value[0])
    && !IsSeparator(value[|value| - 1])
    && !Contains(value, "--") && !Contains(value, "__")
    && !Contains(value, "-_") && !Contains(value, "_-")
  }

  /** Two adjacent separators are exactly an occurrence of one of the four two-letter patterns. */
  lemma AdjacentSeparators(s: string, i: nat)
    requires i + 1 < |s| && IsSeparator(s[i]) && IsSeparator(s[i + 1])
    ensures Contains(s, "--") || Contains(s, "__") || Contains(s, "-_") || Contains(s, "_-")
  {
    var pair := [s[i], s[i + 1]];
    assert pair == "--" || pair == "__" || pair == "-_" || pair == "_-";
    assert s[i..i + 2] == pair;
    assert OccursAt(s, pair, i);
  }

  lemma PatternNeedsAdjacentSeparators(s: string, pattern: string)
    requires IsNodeId(s) && |pattern| == 2 && IsSeparator(pattern[0]) && IsSeparator(pattern[1])
    ensures !Contains(s, pattern)
  {
    forall i | 0 <= i <= |s| ensures !OccursAt(s, pattern, i) {
      if i + 2 <= |s| {
        assert s[i..i + 2][0] == s[i] && s[i..i + 2][1] == s[i + 1];
      }
    }
  }

  /** The substring formulation and the position-wise grammar accept the same strings. */
  lemma RecognisersAgree(value: string)
    ensures ValidId(value) <==> IsNodeId(value)
  {
    if ValidId(value) {
      forall i | 0 <= i < |value| - 1 ensures IsAlphanumeric(value[i]) || IsAlphanumeric(value[i + 1]) {
        if IsSeparator(value[i]) && IsSeparator(value[i + 1]) {
          AdjacentSeparators(value, i);
        }
      }
    }
    if IsNodeId(value) {
      PatternNeedsAdjacentSeparators(value, "--");
      PatternNeedsAdjacentSeparators(value, "__");
      PatternNeedsAdjacentSeparators(value, "-_");
      PatternNeedsAdjacentSeparators(value, "_-");
    }
  }
}
