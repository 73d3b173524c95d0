/**
 * Cell-level text cleaning: the whole-table pre-clean that runs before typed
 * parsing (`normalize_strings`) and the final trim with its "Não informado"
 * default (`clean_and_normalize_final`).
 */
module Cleaning {
  import opened Text
  import opened Values

  /** The exact, case-sensitive texts the pre-clean treats as missing. */
  const NullTokens: set<string> :=
    {"NaN", "None", "NoneType", "(null)", "na", "n/a", "N/A", "NULL", "null", "nan"}

  /** The texts the final trim treats as missing. */
  const FinalNullTokens: set<string> := {"nan", "None", "(null)", "NA/NA"}

  /** The default written into empty cause and accident-type cells. */
  const Unknown: string := "Não informado"

  lemma NullTokensHaveNoPoint()
    ensures forall tok :: tok in NullTokens ==> '.' !in tok && tok != ""
  {
  }

  /**
   * What the pre-clean leaves in a cell: stripped, not empty, no comma, and
   * none of the missing-value tokens.
   */
  predicate IsClean(s: string) {
    IsStripped(s) && s != "" && ',' !in s && s !in NullTokens
  }

  /**
   * One cell of `normalize_strings`: its text (`astype(str)`), stripped; a
   * missing-value token becomes empty; commas become points; empty becomes
   * missing.
   */
  function NormalizeCell(env: Env, v: Value): (r: Value)
    ensures r.Null? || (r.Str? && IsClean(r.s))
  {
    var s := Strip(Render(env, v));
    var s1 := if s in NullTokens then "" else s;
    var t := ReplaceChar(s1, ',', '.');
    if t == "" then Null
    else
      assert IsStripped(t) by {
        assert t[0] == '.' || t[0] == s1[0];
        assert t[|t| - 1] == '.' || t[|t| - 1] == s1[|s1| - 1];
      }
      assert t !in NullTokens by {
        NullTokensHaveNoPoint();
        if '.' !in t {
          assert forall k :: 0 <= k < |t| ==> t[k] == s1[k];
          assert t == s1;
        }
      }
      Str(t)
  }

  /** A clean cell passes through the pre-clean unchanged. */
  lemma NormalizeCleanIsIdentity(env: Env, s: string)
    requires IsClean(s)
    ensures NormalizeCell(env, Str(s)) == Str(s)
  {
    StripOfStripped(s);
    assert ReplaceChar(s, ',', '.') == s;
  }

  /** Every token, and every text that is only whitespace, becomes missing, whatever whitespace surrounds it. */
  lemma NormalizeTokensToNull(env: Env, pre: string, tok: string, post: string)
    requires tok in NullTokens || tok == ""
    requires forall k :: 0 <= k < |pre| ==> IsSpace(pre[k])
    requires forall k :: 0 <= k < |post| ==> IsSpace(post[k])
    ensures NormalizeCell(env, Str(pre + tok + post)) == Null
  {
    assert IsStripped(tok) by {
      if tok != "" {
        assert tok in {"NaN", "None", "NoneType", "(null)", "na", "n/a", "N/A", "NULL", "null", "nan"};
      }
    }
    StripPadded(pre, tok, post);
  }

  /**
   * One cell of the final trim: `astype(str).str.strip()`, then the final
   * tokens become missing. Every missing cell of a trimmed column was written
   * by the pre-clean or a string cast as `pd.NA`, so it renders as `naText`.
   */
  function TrimCell(env: Env, v: Value): (r: Value)
    ensures r.Null? || (r.Str? && IsStripped(r.s) && r.s !in FinalNullTokens)
    ensures v.Null? ==> r == (if Strip(env.naText) in FinalNullTokens then Null else Str(Strip(env.naText)))
  {
    var s := Strip(Render(Written(env), v));
    if s in FinalNullTokens then Null else Str(s)
  }

  /** A trimmed cell that is not a final token passes through the final trim unchanged. */
  lemma TrimCellOfTrimmed(env: Env, s: string)
    requires IsStripped(s) && s !in FinalNullTokens
    ensures TrimCell(env, Str(s)) == Str(s)
  {
    StripOfStripped(s);
  }

  /**
   * With pandas' `str(pd.NA) == "<NA>"`, a missing cell comes out of the final
   * trim as the text "<NA>", which the "Não informado" default leaves alone;
   * and a second pre-clean would keep it as text too.
   */
  lemma MissingRendersAsNA(env: Env)
    requires env.naText == "<NA>"
    ensures TrimCell(env, Null) == Str("<NA>")
    ensures DefaultUnknown(TrimCell(env, Null)) == Str("<NA>")
    ensures NormalizeCell(Written(env), Null) == Str("<NA>")
  {
    assert IsStripped("<NA>");
    StripOfStripped("<NA>");
    assert ReplaceChar("<NA>", ',', '.') == "<NA>";
  }

  /** `replace({pd.NA: "Não informado", "": "Não informado"})`. */
  function DefaultUnknown(v: Value): (r: Value)
    ensures !r.Null?
    ensures r.Str? ==> r.s != ""
    ensures !v.Null? && v != Str("") ==> r == v
    ensures v.Null? || v == Str("") ==> r == Str(Unknown)
  {
    if v.Null? || v == Str("") then Str(Unknown) else v
  }
}
