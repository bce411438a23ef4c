// Search for a string in the first bytes of a buffer.
module Strnstr {

  const NUL := '\0'

  // The string stands at index i, within the limit, and nothing up to its end is a terminator.
  predicate Occurs(s: seq<char>, find: string, slen: nat, i: int) {
    && 0 <= i && i + |find| <= slen && i + |find| <= |s|
    && s[i..i + |find|] == find
    && NUL !in s[..i + |find|]
  }

  ghost predicate NoneBefore(s: seq<char>, find: string, slen: nat, n: int) {
    forall i | 0 <= i < n :: !Occurs(s, find, slen, i)
  }

  // Finds the first occurrence, or gives -1 for the null pointer. The buffer reaches to its
  // terminator or to the limit.
  method Search(s: seq<char>, find: string, slen: nat) returns (r: int)
    requires NUL !in find
    requires NUL in s || |s| >= slen
    ensures r == -1 <==> forall i :: !Occurs(s, find, slen, i)
    ensures r != -1 ==> Occurs(s, find, slen, r) && NoneBefore(s, find, slen, r)
  {
    if |find| == 0 {
      assert Occurs(s, find, slen, 0);
      return 0;
    }
    var c, rest := find[0], find[1..];
    var len := |rest|;
    var pos, left := 0, slen;
    while true
      invariant 0 <= pos <= |s| && left == slen - pos && left >= 0
      invariant NUL !in s[..pos]
      invariant NoneBefore(s, find, slen, pos)
      decreases left
    {
      // Skip to the first character of the string.
      while true
        invariant 0 <= pos <= |s| && left == slen - pos && left >= 0
        invariant NUL !in s[..pos]
        invariant NoneBefore(s, find, slen, pos)
        decreases left
      {
        if left < 1 {
          NoneLater(s, find, slen, pos);
          return -1;
        }
        assert pos < |s| by {
          assert s[..|s|] == s;
        }
        var sc := s[pos];
        if sc == NUL {
          NoneLater(s, find, slen, pos);
          return -1;
        }
        if sc == c {
          break;
        }
        NotHere(s, find, slen, pos);
        pos, left := pos + 1, left - 1;
      }
      pos, left := pos + 1, left - 1;
      if len > left {
        NoneLater(s, find, slen, pos - 1);
        return -1;
      }
      // strncmp: the string has no terminator, so a shorter buffer differs at its own.
      if pos + len <= |s| && s[pos..pos + len] == rest {
        FoundHere(s, find, slen, pos - 1);
        return pos - 1;
      }
      NotHere(s, find, slen, pos - 1);
    }
  }

  lemma NoneLater(s: seq<char>, find: string, slen: nat, from: nat)
    requires |find| > 0 && from <= |s|
    requires from + |find| > slen || (from < |s| && s[from] == NUL)
    requires NoneBefore(s, find, slen, from)
    ensures forall i :: !Occurs(s, find, slen, i)
  {
    forall i
      ensures !Occurs(s, find, slen, i)
    {
      if i >= from && i + |find| <= |s| && from < |s| && s[from] == NUL {
        assert s[..i + |find|][from] == NUL;
      }
    }
  }

  lemma NotHere(s: seq<char>, find: string, slen: nat, i: nat)
    requires |find| > 0 && i < |s|
    requires s[i] != find[0] || !(i + |find| <= |s| && s[i + 1..i + |find|] == find[1..])
    requires NoneBefore(s, find, slen, i)
    ensures NoneBefore(s, find, slen, i + 1)
  {
    if Occurs(s, find, slen, i) {
      HereMeans(s, find, slen, i);
    }
  }

  lemma HereMeans(s: seq<char>, find: string, slen: nat, i: nat)
    requires |find| > 0 && Occurs(s, find, slen, i)
    ensures s[i] == find[0] && s[i + 1..i + |find|] == find[1..]
  {
    assert s[i..i + |find|][0] == s[i];
    assert s[i..i + |find|][1..] == s[i + 1..i + |find|];
  }

  lemma FoundHere(s: seq<char>, find: string, slen: nat, i: nat)
    requires |find| > 0 && NUL !in find && i + |find| <= |s| && i + |find| <= slen
    requires s[i] == find[0] && s[i + 1..i + |find|] == find[1..] && NUL !in s[..i]
    ensures Occurs(s, find, slen, i)
  {
    assert s[i..i + |find|] == [s[i]] + s[i + 1..i + |find|] == find;
    assert s[..i + |find|] == s[..i] + find;
  }
}
