/** The conversion of a JVM internal name (`a/b/Outer$Inner`) to a dotted qualified name, with its
    best-effort guess of which '$' characters separate nested classes. The guess is wrong for classes
    whose own simple name contains '$'; the model keeps it exactly as the source has it. */
module InternalNames {
  import opened Sequences

  /** A '$' at position `p` is taken for a nested-class separator when it is neither the first nor the
      last character, does not follow a '/', and is not followed by another '$'. */
  predicate IsNestedSeparator(s: string, p: nat)
    requires p < |s|
  {
    s[p] == '$' && p > 0 && s[p - 1] != '/' && p < |s| - 1 && s[p + 1] != '$'
  }

  /** The name after the '$' rewriting alone, as a pointwise map over the ORIGINAL name. */
  function RewriteSeparators(s: string): (r: string)
    ensures |r| == |s|
  {
    seq(|s|, p requires 0 <= p < |s| => if IsNestedSeparator(s, p) then '.' else s[p])
  }

  /** The dotted name: every '/' and every nested-class '$' becomes '.'. */
  function InternalNameToFqName(s: string): (r: string)
    ensures |r| == |s|
  {
    ReplaceChar(RewriteSeparators(s), '/', '.')
  }

  /** The in-place loop of the source, over a character buffer that it updates as it goes. Reading the
      buffer at `p - 1` after it may have been rewritten still gives the original answer, since a rewrite
      only ever turns '$' into '.', never into '/' or '$'. */
  method ConvertInternalNameToFqName(internalName: string) returns (r: string)
    ensures r == InternalNameToFqName(internalName)
  {
    var canonicalText := internalName;
    if '$' in internalName {
      var sb := new char[|internalName|](i requires 0 <= i < |internalName| => internalName[i]);
      var updated := false;
      for p := 0 to sb.Length
        invariant forall k :: 0 <= k < p ==> sb[k] == RewriteSeparators(internalName)[k]
        invariant forall k :: p <= k < sb.Length ==> sb[k] == internalName[k]
        invariant !updated ==> sb[..p] == internalName[..p]
      {
        var c := sb[p];
        if c == '$' && p > 0 && sb[p - 1] != '/' && p < sb.Length - 1 && sb[p + 1] != '$' {
          sb[p] := '.';
          updated := true;
        }
      }
      assert sb[..] == RewriteSeparators(internalName);
      if updated {
        canonicalText := sb[..];
      } else {
        assert sb[..] == sb[..sb.Length];
      }
    } else {
      assert RewriteSeparators(internalName) == internalName;
    }
    r := ReplaceChar(canonicalText, '/', '.');
  }

  /** Each character of the result depends only on the original name around it: it is '.' exactly where
      the original had '/' or a nested-class '$', and the original character everywhere else. */
  lemma InternalNameToFqNameAt(s: string, p: nat)
    requires p < |s|
    ensures InternalNameToFqName(s)[p] == if s[p] == '/' || IsNestedSeparator(s, p) then '.' else s[p]
  {
  }

  /** No '/' survives the conversion. */
  lemma NoSlashInFqName(s: string)
    ensures '/' !in InternalNameToFqName(s)
  {
    var r := InternalNameToFqName(s);
    forall p | 0 <= p < |r| ensures r[p] != '/' {
      InternalNameToFqNameAt(s, p);
    }
  }

  /** A name without '$' is changed only by the '/' to '.' replacement. */
  lemma NoDollarOnlySlashes(s: string)
    requires '$' !in s
    ensures InternalNameToFqName(s) == ReplaceChar(s, '/', '.')
  {
    assert RewriteSeparators(s) == s;
  }

  /** A name without '/' is changed only by the '$' rewriting. */
  lemma NoSlashOnlyDollars(s: string)
    requires '/' !in s
    ensures InternalNameToFqName(s) == RewriteSeparators(s)
  {
    var r := RewriteSeparators(s);
    forall p | 0 <= p < |r| ensures r[p] != '/' {
      assert s[p] != '/';
    }
    assert ReplaceChar(r, '/', '.') == r;
  }

  lemma ExampleOuterInner()
    ensures InternalNameToFqName("Outer$Inner") == "Outer.Inner"
  {
    var s := "Outer$Inner";
    calc {
      InternalNameToFqName(s);
    == { NoSlashOnlyDollars(s); }
      RewriteSeparators(s);
    == { assert IsNestedSeparator(s, 5); }
      "Outer.Inner";
    }
  }

  /** Only a '$' followed by '$' is protected: in `a/b$$c` the second '$' is rewritten. */
  lemma ExampleDoubleDollar()
    ensures InternalNameToFqName("a/b$$c") == "a.b$.c"
  {
    var s := "a/b$$c";
    var r := InternalNameToFqName(s);
    assert !IsNestedSeparator(s, 3) && IsNestedSeparator(s, 4);
    forall p | 0 <= p < |s| ensures r[p] == "a.b$.c"[p] {
      InternalNameToFqNameAt(s, p);
    }
    assert r == "a.b$.c";
  }

  lemma ExampleLeadingDollar()
    ensures InternalNameToFqName("$Proxy") == "$Proxy"
  {
    var s := "$Proxy";
    calc {
      InternalNameToFqName(s);
    == { NoSlashOnlyDollars(s); }
      RewriteSeparators(s);
    == { assert !IsNestedSeparator(s, 0); }
      s;
    }
  }
}
