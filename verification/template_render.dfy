/** Rendering a template string: every placeholder is replaced by the text
    its key resolves to, left to right, and the first key that fails to
    resolve aborts the whole rendering with its error. `Expand` states this
    on the scanned piece list; `RenderBorrow` is the single left-to-right
    pass the engine makes over the placeholder occurrences, and is proved
    to compute the same result. */
module TemplateRender {
  import opened Wrappers
  import opened TemplateErrors
  import opened TemplateSources
  import opened Scanner
  import Keys = TemplateKeys

  /** A rendered prefix in front of the outcome of rendering the rest. */
  function Prepend(p: string, rest: Result<string, TemplateError>): (r: Result<string, TemplateError>)
    ensures r.Success? <==> rest.Success?
    ensures r.Success? ==> r.value == p + rest.value
    ensures r.Failure? ==> r.error == rest.error
  {
    match rest
    case Success(v) => Success(p + v)
    case Failure(e) => Failure(e)
  }

  lemma PrependPrepend(a: string, b: string, rest: Result<string, TemplateError>)
    ensures Prepend(a, Prepend(b, rest)) == Prepend(a + b, rest)
  {
    if rest.Success? {
      assert a + (b + rest.value) == (a + b) + rest.value;
    }
  }

  /** Reference semantics: literal text is copied, a hole is replaced by
      the text its key resolves to (the spaces around the key play no
      part), and the first hole that fails decides the error. */
  function Expand(segs: seq<Segment>, ctx: Context, host: Host): Result<string, TemplateError>
    decreases |segs|
  {
    if segs == [] then Success("")
    else match segs[0]
      case Lit(t) => Prepend(t, Expand(segs[1..], ctx, host))
      case Hole(_, key, _) =>
        match ResolveRaw(ctx, host, key)
        case Failure(e) => Failure(e)
        case Success(v) => Prepend(v, Expand(segs[1..], ctx, host))
  }

  // ---------------------------------------------------------------------
  // The engine's pass over the template

  /** A literal piece (or nothing, for empty text) expands to its text. */
  lemma ExpandBefore(s: string, from: nat, upto: nat, ctx: Context, host: Host)
    requires from <= upto <= |s|
    ensures Expand(Before(s, from, upto), ctx, host) == Success(s[from..upto])
  {
    if from < upto {
      assert Before(s, from, upto) == [Lit(s[from..upto])];
      ExpandLit(s[from..upto], ctx, host);
    } else {
      assert Before(s, from, upto) == [];
      assert s[from..upto] == "";
    }
  }

  lemma ExpandLit(x: string, ctx: Context, host: Host)
    ensures Expand([Lit(x)], ctx, host) == Success(x)
  {
    var segs := [Lit(x)];
    assert segs[1..] == [];
    assert x + "" == x;
  }

  /** Pieces made of a prefix that expands to `pre`, a hole and more
      pieces: the prefix and the hole's value ahead of the rest, or the
      hole's error. */
  lemma ExpandSplit(segs: seq<Segment>, before: seq<Segment>, pre: string, h: Segment,
                    rest: seq<Segment>, ctx: Context, host: Host)
    requires h.Hole? && segs == before + [h] + rest
    requires Expand(before, ctx, host) == Success(pre)
    ensures var v := ResolveRaw(ctx, host, h.key);
      && (v.Failure? ==> Expand(segs, ctx, host) == Failure(v.error))
      && (v.Success? ==> Expand(segs, ctx, host) == Prepend(pre + v.value, Expand(rest, ctx, host)))
  {
    assert segs == before + ([h] + rest);
    ExpandAppend(before, [h] + rest, ctx, host);
    assert ([h] + rest)[0] == h;
    assert ([h] + rest)[1..] == rest;
    var v := ResolveRaw(ctx, host, h.key);
    if v.Success? {
      PrependPrepend(pre, v.value, Expand(rest, ctx, host));
    }
  }

  /** One step of the pass: the text before the next placeholder, then the
      placeholder's value, or the placeholder's error. */
  lemma ExpandFound(t: string, last: nat, m: Match, ctx: Context, host: Host)
    requires last <= |t| && FindFrom(t, last) == Some(m)
    ensures last <= m.start < m.end <= |t| && m.keyStart <= m.keyEnd
    ensures var v := ResolveRaw(ctx, host, t[m.keyStart..m.keyEnd]);
      && (v.Failure? ==> Expand(ScanFrom(t, last), ctx, host) == Failure(v.error))
      && (v.Success? ==>
            Expand(ScanFrom(t, last), ctx, host)
            == Prepend(t[last..m.start] + v.value, Expand(ScanFrom(t, m.end), ctx, host)))
  {
    ScanFromFound(t, last, m);
    ExpandBefore(t, last, m.start, ctx, host);
    ExpandSplit(ScanFrom(t, last), Before(t, last, m.start), t[last..m.start], HoleOf(t, m),
                ScanFrom(t, m.end), ctx, host);
  }

  /** The end of the pass: the text after the last placeholder is copied. */
  lemma ExpandTail(t: string, last: nat, ctx: Context, host: Host)
    requires last <= |t| && FindFrom(t, last).None?
    ensures Expand(ScanFrom(t, last), ctx, host) == Success(t[last..])
  {
    ScanFromNone(t, last);
    ExpandBefore(t, last, |t|, ctx, host);
    assert t[last..|t|] == t[last..];
  }

  /** Render a template, keeping the error as the engine's borrowed form:
      copy the text up to each placeholder, parse its key, resolve it and
      append the value; stop at the first key that fails. */
  method RenderBorrow(template: string, ctx: Context, host: Host) returns (r: Result<string, TemplateError>)
    ensures r == Expand(Scan(template), ctx, host)
  {
    var out := "";
    var last := 0;
    var next := FindFrom(template, 0);
    PrependEmpty(Expand(Scan(template), ctx, host));
    while next.Some?
      invariant last <= |template|
      invariant next == FindFrom(template, last)
      invariant Expand(Scan(template), ctx, host) == Prepend(out, Expand(ScanFrom(template, last), ctx, host))
      decreases |template| - last
    {
      var m := next.value;
      RenderStep(template, last, m, out, ctx, host);
      var raw := template[m.keyStart..m.keyEnd];
      out := out + template[last..m.start];
      var key :- Keys.Parse(raw);
      var value :- ResolveKey(ctx, host, key);
      out := out + value;
      last := m.end;
      next := FindFrom(template, last);
    }
    ExpandTail(template, last, ctx, host);
    out := out + template[last..];
    r := Success(out);
  }

  /** One pass of the loop: with `out` rendered ahead of `last` and `m`
      the next placeholder, the whole result is `out`, the text up to `m`
      and `m`'s value ahead of what follows `m`, or else `m`'s error. */
  lemma RenderStep(t: string, last: nat, m: Match, out: string, ctx: Context, host: Host)
    requires last <= |t| && FindFrom(t, last) == Some(m)
    requires Expand(Scan(t), ctx, host) == Prepend(out, Expand(ScanFrom(t, last), ctx, host))
    ensures last <= m.start < m.end <= |t| && m.keyStart <= m.keyEnd <= m.end
    ensures var v := ResolveRaw(ctx, host, t[m.keyStart..m.keyEnd]);
      && (v.Failure? ==> Expand(Scan(t), ctx, host) == Failure(v.error))
      && (v.Success? ==>
            Expand(Scan(t), ctx, host)
            == Prepend(out + t[last..m.start] + v.value, Expand(ScanFrom(t, m.end), ctx, host)))
  {
    ExpandFound(t, last, m, ctx, host);
    PrependStep(Expand(Scan(t), ctx, host), out, Expand(ScanFrom(t, last), ctx, host),
                t[last..m.start], ResolveRaw(ctx, host, t[m.keyStart..m.keyEnd]),
                Expand(ScanFrom(t, m.end), ctx, host));
  }

  /** A result that is `out` ahead of `here`, where `here` is `pre` and a
      value ahead of `rest` or else that value's error. */
  lemma PrependStep(whole: Result<string, TemplateError>, out: string, here: Result<string, TemplateError>,
                    pre: string, v: Result<string, TemplateError>, rest: Result<string, TemplateError>)
    requires whole == Prepend(out, here)
    requires v.Failure? ==> here == Failure(v.error)
    requires v.Success? ==> here == Prepend(pre + v.value, rest)
    ensures v.Failure? ==> whole == Failure(v.error)
    ensures v.Success? ==> whole == Prepend(out + pre + v.value, rest)
  {
    if v.Success? {
      PrependPrepend(out, pre + v.value, rest);
      assert out + (pre + v.value) == out + pre + v.value;
    }
  }

  lemma PrependEmpty(rest: Result<string, TemplateError>)
    ensures Prepend("", rest) == rest
  {
    if rest.Success? {
      assert "" + rest.value == rest.value;
    }
  }

  /** Why a template did not render, in the owned form returned to callers
      outside the engine: the template and the converted cause. */
  datatype RenderFailure = RenderFailure(template: string, cause: TemplateError)

  /** Render a template, converting any error to the owned form. */
  method Render(template: string, ctx: Context, host: Host) returns (r: Result<string, RenderFailure>)
    ensures r.Success? <==> Expand(Scan(template), ctx, host).Success?
    ensures r.Success? ==> r.value == Expand(Scan(template), ctx, host).value
    ensures r.Failure? ==>
      && r.error.template == template
      && r.error.cause == IntoOwned(Expand(Scan(template), ctx, host).error)
      && IsOwned(r.error.cause)
  {
    var borrowed := RenderBorrow(template, ctx, host);
    r := borrowed.MapFailure(e => RenderFailure(template, IntoOwned(e)));
  }

  // ---------------------------------------------------------------------
  // Properties of rendering

  /** A template without placeholders renders to itself. */
  lemma PlainRendersItself(t: string, ctx: Context, host: Host)
    requires PlainText(t)
    ensures Expand(Scan(t), ctx, host) == Success(t)
  {
    FindFromPast(t, 0, |t|);
    ExpandTail(t, 0, ctx, host);
  }

  /** The same pieces with no spaces inside any pair of braces. */
  function Tight(segs: seq<Segment>): (r: seq<Segment>)
    ensures |r| == |segs|
    ensures forall k | 0 <= k < |segs| ::
      r[k] == (if segs[k].Hole? then Hole("", segs[k].key, "") else segs[k])
  {
    if segs == [] then []
    else
      var head := if segs[0].Hole? then Hole("", segs[0].key, "") else segs[0];
      [head] + Tight(segs[1..])
  }

  /** The spaces around a key do not change what a piece list renders to. */
  lemma {:induction false} ExpandIgnoresSpaces(segs: seq<Segment>, ctx: Context, host: Host)
    ensures Expand(Tight(segs), ctx, host) == Expand(segs, ctx, host)
    decreases |segs|
  {
    if segs != [] {
      ExpandIgnoresSpaces(segs[1..], ctx, host);
      assert Tight(segs)[1..] == Tight(segs[1..]);
    }
  }

  lemma TightWellFormed(segs: seq<Segment>)
    requires WellFormed(segs)
    ensures WellFormed(Tight(segs))
  {
    var r := Tight(segs);
    forall k | 0 <= k < |r| ensures SegmentOk(r[k]) {
      assert SegmentOk(segs[k]);
    }
  }

  /** A template renders as the same template with every placeholder
      written without spaces inside its braces. */
  lemma RenderIgnoresSpaces(segs: seq<Segment>, ctx: Context, host: Host)
    requires WellFormed(segs)
    ensures Expand(Scan(Print(segs)), ctx, host) == Expand(Scan(Print(Tight(segs))), ctx, host)
  {
    PrintScan(segs);
    TightWellFormed(segs);
    PrintScan(Tight(segs));
    ExpandIgnoresSpaces(segs, ctx, host);
  }

  /** The hole at `k` is a key that fails to resolve. */
  predicate Fails(segs: seq<Segment>, k: nat, ctx: Context, host: Host)
    requires k < |segs|
  {
    segs[k].Hole? && ResolveRaw(ctx, host, segs[k].key).Failure?
  }

  /** Rendering fails exactly when some key fails, and then with the error
      of the leftmost failing key. */
  lemma {:induction false} FirstFailureWins(segs: seq<Segment>, ctx: Context, host: Host)
    ensures Expand(segs, ctx, host).Failure? <==> exists k | 0 <= k < |segs| :: Fails(segs, k, ctx, host)
    ensures Expand(segs, ctx, host).Failure? ==>
      exists k | 0 <= k < |segs| ::
        && Fails(segs, k, ctx, host)
        && Expand(segs, ctx, host).error == ResolveRaw(ctx, host, segs[k].key).error
        && forall j | 0 <= j < k :: !Fails(segs, j, ctx, host)
    decreases |segs|
  {
    if segs != [] {
      var tail := segs[1..];
      FirstFailureWins(tail, ctx, host);
      assert forall j | 1 <= j < |segs| :: Fails(segs, j, ctx, host) == Fails(tail, j - 1, ctx, host);
      if Fails(segs, 0, ctx, host) {
        assert Expand(segs, ctx, host).error == ResolveRaw(ctx, host, segs[0].key).error;
      } else if Expand(segs, ctx, host).Failure? {
        assert Expand(tail, ctx, host).Failure?;
        var k :| 0 <= k < |tail|
          && Fails(tail, k, ctx, host)
          && Expand(tail, ctx, host).error == ResolveRaw(ctx, host, tail[k].key).error
          && forall j | 0 <= j < k :: !Fails(tail, j, ctx, host);
        assert segs[k + 1] == tail[k];
        assert Fails(segs, k + 1, ctx, host);
      } else {
        assert Expand(tail, ctx, host).Success?;
        forall k | 0 <= k < |segs| ensures !Fails(segs, k, ctx, host) {
          if k > 0 {
            assert Fails(segs, k, ctx, host) == Fails(tail, k - 1, ctx, host);
          }
        }
      }
    }
  }

  /** Rendering is compositional: two piece lists render one after the
      other, and the first list's error, if any, wins. */
  lemma {:induction false} ExpandAppend(a: seq<Segment>, b: seq<Segment>, ctx: Context, host: Host)
    ensures Expand(a, ctx, host).Failure? ==> Expand(a + b, ctx, host) == Expand(a, ctx, host)
    ensures Expand(a, ctx, host).Success? ==>
      Expand(a + b, ctx, host) == Prepend(Expand(a, ctx, host).value, Expand(b, ctx, host))
    decreases |a|
  {
    if a == [] {
      assert a + b == b;
      PrependEmpty(Expand(b, ctx, host));
    } else {
      assert (a + b)[0] == a[0];
      assert (a + b)[1..] == a[1..] + b;
      ExpandAppend(a[1..], b, ctx, host);
      var head := if a[0].Lit? then Success(a[0].text) else ResolveRaw(ctx, host, a[0].key);
      if head.Success? && Expand(a[1..], ctx, host).Success? {
        PrependPrepend(head.value, Expand(a[1..], ctx, host).value, Expand(b, ctx, host));
      }
    }
  }

  /** Each occurrence of a key is resolved on its own: a key that appears
      twice contributes its value twice, or fails at its first occurrence. */
  lemma RepeatedKeyRendersTwice(h: Segment, ctx: Context, host: Host)
    requires h.Hole?
    ensures var v := ResolveRaw(ctx, host, h.key);
      && (v.Success? ==> Expand([h, h], ctx, host) == Success(v.value + v.value))
      && (v.Failure? ==> Expand([h, h], ctx, host) == Failure(v.error))
  {
    assert [h, h] == [h] + [h];
    assert [h][1..] == [];
    ExpandAppend([h], [h], ctx, host);
    if ResolveRaw(ctx, host, h.key).Success? {
      var x := ResolveRaw(ctx, host, h.key).value;
      assert x + "" == x;
    }
  }

  /** Empty braces are not a placeholder, so they are copied as text. */
  lemma EmptyBracesAreText(ctx: Context, host: Host)
    ensures Expand(Scan("{{}}"), ctx, host) == Success("{{}}")
  {
    var t := "{{}}";
    assert MatchAt(t, 0).None? by {
      assert Skip(t, 2, Space) == 2;
      assert Skip(t, 2, KeyChar) == 2;
    }
    assert MatchAt(t, 1).None? by {
      assert t[2] != '{';
    }
    assert PlainText(t) by {
      forall j | 0 <= j < |t| ensures MatchAt(t, j).None? {
        if j >= 2 {
          assert t[j] != '{';
        }
      }
    }
    PlainRendersItself(t, ctx, host);
  }

  // ---------------------------------------------------------------------
  // A worked example: overrides take precedence over the profile

  lemma FieldParses(name: string)
    requires forall i | 0 <= i < |name| :: name[i] != '.'
    ensures Keys.Parse(name) == Success(Keys.Field(name))
  {
    Keys.UnparseParse(Keys.Field(name));
  }

  lemma KeyChars(key: string)
    requires forall i | 0 <= i < |key| :: 'a' <= key[i] <= 'z' || key[i] == '_'
    ensures forall i | 0 <= i < |key| :: IsKeyChar(key[i]) && key[i] != '.'
  {
  }

  lemma WellFormedThree(a: Segment, b: Segment, c: Segment)
    requires SegmentOk(a) && SegmentOk(b) && SegmentOk(c)
    requires a.Hole? && c.Hole?
    ensures WellFormed([a, b, c])
  {
  }

  lemma PrintThree(a: Segment, b: Segment, c: Segment)
    ensures Print([a, b, c]) == Text(a) + Text(b) + Text(c)
  {
    assert [a, b, c][1..] == [b, c];
    assert [b, c][1..] == [c];
    assert [c][1..] == [];
    assert Print([c]) == Text(c) + "" == Text(c);
    assert Print([b, c]) == Text(b) + Text(c);
    assert Text(a) + (Text(b) + Text(c)) == Text(a) + Text(b) + Text(c);
  }

  lemma ExpandThree(a: Segment, b: Segment, c: Segment, ctx: Context, host: Host)
    requires a.Hole? && b.Lit? && c.Hole?
    requires ResolveRaw(ctx, host, a.key).Success? && ResolveRaw(ctx, host, c.key).Success?
    ensures Expand([a, b, c], ctx, host)
      == Success(ResolveRaw(ctx, host, a.key).value + b.text + ResolveRaw(ctx, host, c.key).value)
  {
    var x, z := ResolveRaw(ctx, host, a.key).value, ResolveRaw(ctx, host, c.key).value;
    assert [a, b, c][1..] == [b, c];
    assert [b, c][1..] == [c];
    assert [c][1..] == [];
    assert z + "" == z;
    assert Expand([c], ctx, host) == Success(z);
    assert Expand([b, c], ctx, host) == Success(b.text + z);
    assert x + (b.text + z) == x + b.text + z;
  }

  /** The field test's context: `user_id` is 1 in the profile and
      overridden to 2, `group_id` is 3 in the profile. */
  function FieldsContext(): Context {
    Context(map["user_id" := "1", "group_id" := "3"], map["user_id" := "2"], [], map[])
  }

  lemma FieldsTemplate()
    ensures Text(Hole("", "user_id", "")) + Text(Lit(" ")) + Text(Hole("", "group_id", ""))
         == "{{user_id}} {{group_id}}"
  {
    BareHoleText("user_id");
    BareHoleText("group_id");
    assert "{{" + "user_id" + "}}" == "{{user_id}}";
    assert "{{" + "group_id" + "}}" == "{{group_id}}";
  }

  /** A hole without spaces around its key prints as the key in braces. */
  lemma BareHoleText(key: string)
    ensures Text(Hole("", key, "")) == "{{" + key + "}}"
  {
    assert "{{" + "" + key + "" + "}}" == "{{" + key + "}}";
  }

  /** A field key resolves to its override, or else to its profile value. */
  lemma FieldResolves(ctx: Context, host: Host, name: string)
    requires forall i | 0 <= i < |name| :: name[i] != '.'
    requires name in ctx.overrides || name in ctx.profile
    ensures ResolveRaw(ctx, host, name)
         == Success(if name in ctx.overrides then ctx.overrides[name] else ctx.profile[name])
  {
    FieldParses(name);
  }

  lemma FieldsResolve(host: Host)
    ensures ResolveRaw(FieldsContext(), host, "user_id") == Success("2")
    ensures ResolveRaw(FieldsContext(), host, "group_id") == Success("3")
  {
    var ctx := FieldsContext();
    KeyChars("user_id");
    KeyChars("group_id");
    assert "group_id" !in ctx.overrides;
    FieldResolves(ctx, host, "user_id");
    FieldResolves(ctx, host, "group_id");
  }

  /** The field test's template scans into two holes around a space. */
  lemma FieldsScan()
    ensures Scan("{{user_id}} {{group_id}}")
         == [Hole("", "user_id", ""), Lit(" "), Hole("", "group_id", "")]
  {
    KeyChars("user_id");
    KeyChars("group_id");
    var a, b, c := Hole("", "user_id", ""), Lit(" "), Hole("", "group_id", "");
    assert PlainText(" ") by {
      assert MatchAt(" ", 0).None?;
    }
    WellFormedThree(a, b, c);
    PrintThree(a, b, c);
    FieldsTemplate();
    PrintScan([a, b, c]);
  }

  /** `{{user_id}} {{group_id}}` renders to `2 3`: the override of
      `user_id` wins over the profile, and `group_id` falls through to the
      profile. */
  lemma OverrideBeatsProfile(host: Host)
    ensures Expand(Scan("{{user_id}} {{group_id}}"), FieldsContext(), host) == Success("2 3")
  {
    assert "2" + " " + "3" == "2 3";
    FieldsScan();
    FieldsResolve(host);
    ExpandThree(Hole("", "user_id", ""), Lit(" "), Hole("", "group_id", ""), FieldsContext(), host);
  }
}
