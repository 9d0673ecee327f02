/** Recovering a JSON value from the oracle's free text (clean_json_response):
    delete every "```json" or "```" the way re.sub(r"```json|```", "", ·)
    does, trim Python whitespace, decode, and fall back to {} when decoding fails. */
module Recovery {
  import opened Common
  import opened JsonValues

  const FenceJson: string := "```json"
  const Fence: string := "```"

  predicate StartsWith(s: string, prefix: string)
  {
    |prefix| <= |s| && s[..|prefix|] == prefix
  }

  /** Three backticks start at position i of s. */
  predicate FenceAt(s: string, i: int)
  {
    0 <= i && i + 3 <= |s| && s[i] == '`' && s[i + 1] == '`' && s[i + 2] == '`'
  }

  predicate FenceFree(s: string)
  {
    forall i :: 0 <= i < |s| ==> !FenceAt(s, i)
  }

  /** re.sub(r"```json|```", "", s): scanning left to right, the first
      alternative is tried first at each position, a match is deleted and the
      scan resumes after it; other characters are kept. */
  function StripFences(s: string): (r: string)
    ensures |r| <= |s|
    decreases |s|
  {
    if StartsWith(s, FenceJson) then StripFences(s[|FenceJson|..])
    else if StartsWith(s, Fence) then StripFences(s[|Fence|..])
    else if s == [] then []
    else [s[0]] + StripFences(s[1..])
  }

  /** Both alternatives begin with three backticks. */
  lemma FencePrefixes(s: string)
    ensures StartsWith(s, Fence) <==> FenceAt(s, 0)
    ensures StartsWith(s, FenceJson) ==> FenceAt(s, 0)
  {
    if |s| >= 3 {
      assert s[..3] == Fence <==> s[0] == '`' && s[1] == '`' && s[2] == '`';
    }
    if StartsWith(s, FenceJson) {
      assert s[..7][..3] == Fence;
    }
  }

  /** A kept non-backtick first character stays first. */
  lemma StripKeepsFirst(s: string)
    requires s != [] && s[0] != '`'
    ensures StripFences(s) == [s[0]] + StripFences(s[1..])
  {
    FencePrefixes(s);
  }

  /** The deletion leaves no "```" behind: pieces it glues together never form a new fence. */
  lemma {:induction false} StripLeavesNoFence(s: string)
    ensures FenceFree(StripFences(s))
    decreases |s|
  {
    if StartsWith(s, FenceJson) {
      StripLeavesNoFence(s[|FenceJson|..]);
    } else if StartsWith(s, Fence) {
      StripLeavesNoFence(s[|Fence|..]);
    } else if s != [] {
      var rest := StripFences(s[1..]);
      var r := StripFences(s);
      assert r == [s[0]] + rest;
      StripLeavesNoFence(s[1..]);
      assert !FenceAt(r, 0) by {
        if s[0] == '`' && |s| >= 2 {
          FencePrefixes(s);
          var x := s[1..];
          if x[0] != '`' {
            StripKeepsFirst(x);
          } else if |x| >= 2 {
            assert x[1] != '`';
            FencePrefixes(x);
            assert rest == [x[0]] + StripFences(x[1..]);
            StripKeepsFirst(x[1..]);
          }
        }
      }
      forall i | 1 <= i < |r| ensures !FenceAt(r, i) {
        assert !FenceAt(rest, i - 1);
      }
    }
  }

  /** Text without a fence passes through unchanged. */
  lemma {:induction false} StripFenceFree(s: string)
    requires FenceFree(s)
    ensures StripFences(s) == s
  {
    if s != [] {
      FencePrefixes(s);
      assert FenceFree(s[1..]) by {
        forall i | 0 <= i < |s[1..]| ensures !FenceAt(s[1..], i) {
          assert !FenceAt(s, i + 1);
        }
      }
      StripFenceFree(s[1..]);
    }
  }

  /** Stripping twice is stripping once. */
  lemma StripIdempotent(s: string)
    ensures StripFences(StripFences(s)) == StripFences(s)
  {
    StripLeavesNoFence(s);
    StripFenceFree(StripFences(s));
  }

  lemma {:induction false} StripClosingFence(s: string)
    requires '`' !in s
    ensures StripFences(s + Fence) == s
  {
    if s == [] {
      assert StripFences(Fence) == StripFences([]);
    } else {
      assert (s + Fence)[1..] == s[1..] + Fence;
      StripKeepsFirst(s + Fence);
      StripClosingFence(s[1..]);
    }
  }

  /** A backtick-free body inside a ```json ... ``` block comes out as it went in. */
  lemma FencedBlock(s: string)
    requires '`' !in s
    ensures StripFences(FenceJson + s + Fence) == s
  {
    var w := FenceJson + s + Fence;
    assert StartsWith(w, FenceJson);
    assert w[|FenceJson|..] == s + Fence;
    StripClosingFence(s);
  }

  // ---------------------------------------------------------------------------
  // str.strip()

  /** Python's str.isspace() for one character. */
  predicate IsSpace(c: char)
  {
    var n := c as int;
    || 0x09 <= n <= 0x0D || 0x1C <= n <= 0x20 || n == 0x85 || n == 0xA0
    || n == 0x1680 || 0x2000 <= n <= 0x200A || n == 0x2028 || n == 0x2029
    || n == 0x202F || n == 0x205F || n == 0x3000
  }

  function TrimStart(s: string): (r: string)
    ensures |r| <= |s| && r == s[|s| - |r|..]
    ensures forall k :: 0 <= k < |s| - |r| ==> IsSpace(s[k])
    ensures r == [] || !IsSpace(r[0])
  {
    if s != [] && IsSpace(s[0]) then TrimStart(s[1..]) else s
  }

  function TrimEnd(s: string): (r: string)
    ensures |r| <= |s| && r == s[..|r|]
    ensures forall k :: |r| <= k < |s| ==> IsSpace(s[k])
    ensures r == [] || !IsSpace(r[|r| - 1])
  {
    if s != [] && IsSpace(s[|s| - 1]) then TrimEnd(s[..|s| - 1]) else s
  }

  /** r is s[i..i + |r|], and everything of s outside that slice is whitespace. */
  predicate SliceBetweenSpaces(s: string, r: string, i: int)
  {
    && 0 <= i <= |s| - |r| && r == s[i..i + |r|]
    && (forall k :: 0 <= k < i ==> IsSpace(s[k]))
    && (forall k :: i + |r| <= k < |s| ==> IsSpace(s[k]))
  }

  /** s.strip(): the slice of s left after removing whitespace at both ends. */
  function Trim(s: string): (r: string)
    ensures r == [] || (!IsSpace(r[0]) && !IsSpace(r[|r| - 1]))
    ensures exists i :: SliceBetweenSpaces(s, r, i)
  {
    var left := TrimStart(s);
    var r := TrimEnd(left);
    var i := |s| - |left|;
    assert SliceBetweenSpaces(s, r, i) by {
      assert left == s[i..];
      assert r == s[i..i + |r|];
      forall k | i + |r| <= k < |s| ensures IsSpace(s[k]) {
        assert s[k] == left[k - i];
      }
    }
    r
  }

  // ---------------------------------------------------------------------------
  // clean_json_response

  function Cleaned(response: string): string
  {
    Trim(StripFences(response))
  }

  /** `decode` stands for json.loads: None where it raises JSONDecodeError. */
  function CleanJsonResponse(response: string, decode: string -> Option<Json>): (r: Json)
    ensures decode(Cleaned(response)).None? ==> r == JObject([])
    ensures decode(Cleaned(response)).Some? ==> r == decode(Cleaned(response)).value
  {
    match decode(Cleaned(response))
    case Some(v) => v
    case None => JObject([])
  }

  /** A reply wrapped in a ```json fence decodes exactly as the bare reply does. */
  lemma FencedReplyDecodesAsBare(s: string, decode: string -> Option<Json>)
    requires '`' !in s
    ensures CleanJsonResponse(FenceJson + s + Fence, decode) == CleanJsonResponse(s, decode)
  {
    FencedBlock(s);
    assert FenceFree(s) by {
      forall i | 0 <= i < |s| ensures !FenceAt(s, i) {
        assert s[i] in s;
      }
    }
    StripFenceFree(s);
  }
}
