/** `getCSRFToken`: the anti-forgery token of a settings page is the `value` of the
    first `input` inside the page's first `form`. */
module CsrfToken {
  import opened Wrappers
  import opened Dom

  /** A token sits in `input`, an `input` element inside the `form` element `form`
      of the page whose top-level nodes are `nodes`. */
  ghost predicate InputOfForm(nodes: seq<Node>, form: Node, input: Node)
  {
    && InForest(form, nodes) && form.Element? && form.tag == "form"
    && InForest(input, form.children) && input.Element? && input.tag == "input"
  }

  /** The token on a parsed page: the `value` of the first `input` of the first
      `form`. A missing form or input is a fatal call on `null`. */
  function PageToken(d: Document): (r: Result<string>)
    ensures r == Err(Missing("form", 0)) <==> ElementsByTagName(d, "form") == []
    ensures r.Ok? ==> exists form, input :: InputOfForm(d.nodes, form, input) && r.value == GetAttribute(input, "value")
    ensures ElementsByTagName(d, "form") != []
        ==> (r.Ok? <==> Descendants(ElementsByTagName(d, "form")[0], "input") != [])
    ensures r.Err? && ElementsByTagName(d, "form") != [] ==> r == Err(Missing("input", 0))
  {
    match Item(ElementsByTagName(d, "form"), 0)
    case None => Err(Missing("form", 0))
    case Some(form) =>
      match Item(Descendants(form, "input"), 0)
      case None => Err(Missing("input", 0))
      case Some(input) =>
        assert form in ElementsByTagName(d, "form") && input in Descendants(form, "input");
        assert InForest(form, d.nodes);
        assert form.Element? && form.tag == "form";
        assert InForest(input, form.children);
        assert input.Element? && input.tag == "input";
        assert InputOfForm(d.nodes, form, input);
        Ok(GetAttribute(input, "value"))
  }

  /** The page requested for `$page`. */
  function TokenUrl(mailmanUrl: string, page: string): string
  {
    mailmanUrl + "/" + page
  }

  /** `getCSRFToken($page)`, where `fetch` stands for the authenticated GET and parse.
      The token is the `value` of an input inside a form of the page at
      `<url>/<page>`, and a page without a form is the fatal missing-form error. */
  function GetCSRFToken(mailmanUrl: string, page: string, fetch: string -> Document): (r: Result<string>)
    ensures var p := fetch(TokenUrl(mailmanUrl, page));
      r.Ok? ==> exists form, input :: InputOfForm(p.nodes, form, input) && r.value == GetAttribute(input, "value")
    ensures ElementsByTagName(fetch(TokenUrl(mailmanUrl, page)), "form") == [] <==> r == Err(Missing("form", 0))
    ensures var forms := ElementsByTagName(fetch(TokenUrl(mailmanUrl, page)), "form");
      forms != [] ==> (r.Ok? <==> Descendants(forms[0], "input") != [])
    ensures var forms := ElementsByTagName(fetch(TokenUrl(mailmanUrl, page)), "form");
      r.Err? && forms != [] ==> r == Err(Missing("input", 0))
    ensures r == PageToken(fetch(TokenUrl(mailmanUrl, page)))
  {
    PageToken(fetch(mailmanUrl + "/" + page))
  }

  /** Whatever follows the first form cannot change the outcome, not even a form
      that would have an input. */
  lemma LaterContentIgnored(d: Document, more: seq<Node>)
    requires ElementsByTagName(d, "form") != []
    ensures PageToken(Document(d.nodes + more)) == PageToken(d)
  {
    ForestByTagAppend(d.nodes, more, "form");
  }

  /** Content before the first form that holds no form is ignored, inputs included. */
  lemma EarlierInputsIgnored(before: seq<Node>, d: Document)
    requires ForestByTag(before, "form") == []
    ensures PageToken(Document(before + d.nodes)) == PageToken(d)
  {
    ForestByTagAppend(before, d.nodes, "form");
  }

  /** The token is the `value` of the first input of the first form: the form may
      follow content without forms and hold other content after that input, and
      anything may follow the form. */
  lemma FirstInputOfFirstForm(before: seq<Node>, fa: map<string, string>, pre: seq<Node>,
                              input: Node, post: seq<Node>, after: seq<Node>)
    requires ForestByTag(before, "form") == []
    requires ForestByTag(pre, "input") == []
    requires input.Element? && input.tag == "input"
    ensures PageToken(Document(before + [Element("form", fa, pre + [input] + post)] + after))
         == Ok(GetAttribute(input, "value"))
  {
    var form := Element("form", fa, pre + [input] + post);
    ForestByTagAppend(before + [form], after, "form");
    ForestByTagAppend(before, [form], "form");
    assert ForestByTag([form], "form") == [form] + ForestByTag(form.children, "form") by {
      assert [form][1..] == [];
    }
    assert ElementsByTagName(Document(before + [form] + after), "form")[0] == form;
    ForestByTagAppend(pre + [input], post, "input");
    ForestByTagAppend(pre, [input], "input");
    assert ForestByTag([input], "input") == [input] + ForestByTag(input.children, "input") by {
      assert [input][1..] == [];
    }
    assert Descendants(form, "input")[0] == input;
  }

  /** A `form` element preceded only by content without forms is the page's first form. */
  lemma FirstFormAfter(before: seq<Node>, form: Node, after: seq<Node>)
    requires ForestByTag(before, "form") == []
    requires form.Element? && form.tag == "form"
    ensures ElementsByTagName(Document(before + [form] + after), "form") != []
    ensures ElementsByTagName(Document(before + [form] + after), "form")[0] == form
  {
    ForestByTagAppend(before + [form], after, "form");
    ForestByTagAppend(before, [form], "form");
    assert [form][1..] == [];
  }

  /** An element other than a form that holds the first form (the `html` and `body`
      wrappers of a parsed page, a `div`) does not change the token: it is the
      token of the wrapped content alone. */
  lemma WrapperIgnored(before: seq<Node>, g: string, a: map<string, string>, inner: seq<Node>, after: seq<Node>)
    requires g != "form"
    requires ForestByTag(before, "form") == []
    requires ForestByTag(inner, "form") != []
    ensures PageToken(Document(before + [Element(g, a, inner)] + after)) == PageToken(Document(inner))
  {
    var w := Element(g, a, inner);
    ForestByTagAppend(before + [w], after, "form");
    ForestByTagAppend(before, [w], "form");
    assert [w][1..] == [];
    assert ElementsByTagName(Document(before + [w] + after), "form")[0]
        == ElementsByTagName(Document(inner), "form")[0];
  }

  /** Inside the first form, an element other than an input that holds the form's
      first input does not change the token: the form may as well hold only the
      wrapped content. */
  lemma InputWrapperIgnored(before: seq<Node>, fa: map<string, string>, pre: seq<Node>,
                            g: string, a: map<string, string>, inner: seq<Node>,
                            post: seq<Node>, after: seq<Node>)
    requires ForestByTag(before, "form") == []
    requires ForestByTag(pre, "input") == []
    requires g != "input"
    requires ForestByTag(inner, "input") != []
    ensures PageToken(Document(before + [Element("form", fa, pre + [Element(g, a, inner)] + post)] + after))
         == PageToken(Document(before + [Element("form", fa, inner)] + after))
  {
    var w := Element(g, a, inner);
    var form := Element("form", fa, pre + [w] + post);
    var form' := Element("form", fa, inner);
    FirstFormAfter(before, form, after);
    FirstFormAfter(before, form', after);
    ForestByTagAppend(pre + [w], post, "input");
    ForestByTagAppend(pre, [w], "input");
    assert [w][1..] == [];
    assert Descendants(form, "input")[0] == Descendants(form', "input")[0];
  }

  /** The `html > body` wrappers of a parsed page around its first form. */
  lemma PageWrappersIgnored(ha: map<string, string>, ba: map<string, string>, form: Node)
    requires form.Element? && form.tag == "form"
    ensures PageToken(Document([Element("html", ha, [Element("body", ba, [form])])]))
         == PageToken(Document([form]))
  {
    var body := Element("body", ba, [form]);
    var html := Element("html", ha, [body]);
    assert ForestByTag([form], "form") != [] by {
      FirstFormAfter([], form, []);
      assert [] + [form] + [] == [form];
    }
    assert PageToken(Document([html])) == PageToken(Document([body])) by {
      assert ForestByTag([body], "form") != [] by {
        ForestByTagAppend([], [body], "form");
        assert [body][1..] == [];
      }
      WrapperIgnored([], "html", ha, [body], []);
      assert [] + [html] + [] == [html];
    }
    WrapperIgnored([], "body", ba, [form], []);
    assert [] + [body] + [] == [body];
  }

  /** A `div` around the whole content of a form. */
  lemma FormDivIgnored(fa: map<string, string>, da: map<string, string>, items: seq<Node>)
    requires ForestByTag(items, "input") != []
    ensures PageToken(Document([Element("form", fa, [Element("div", da, items)])]))
         == PageToken(Document([Element("form", fa, items)]))
  {
    var div := Element("div", da, items);
    InputWrapperIgnored([], fa, [], "div", da, items, [], []);
    assert [] + [div] + [] == [div];
    assert [] + [Element("form", fa, [div])] + [] == [Element("form", fa, [div])];
    assert [] + [Element("form", fa, items)] + [] == [Element("form", fa, items)];
  }

  /** The shape a parsed page has, `html > body > form > div > input, ...`: the
      first input gives the token, whatever follows it. */
  lemma NestedFirstInput(ha: map<string, string>, ba: map<string, string>, fa: map<string, string>,
                         da: map<string, string>, input: Node, rest: seq<Node>)
    requires input.Element? && input.tag == "input"
    ensures PageToken(Document([Element("html", ha, [Element("body", ba, [Element("form", fa, [
              Element("div", da, [input] + rest)])])])]))
         == Ok(GetAttribute(input, "value"))
  {
    PageWrappersIgnored(ha, ba, Element("form", fa, [Element("div", da, [input] + rest)]));
    assert ForestByTag([input] + rest, "input") != [] by {
      ForestByTagAppend([input], rest, "input");
      assert [input][1..] == [];
    }
    FormDivIgnored(fa, da, [input] + rest);
    FirstInputOfFirstForm([], fa, [], input, rest, []);
    assert [] + [input] + rest == [input] + rest;
    assert [] + [Element("form", fa, [input] + rest)] + [] == [Element("form", fa, [input] + rest)];
  }

  /** On `html > body > form > div > input, input` the first input's value is the token. */
  lemma NestedTokenExample()
    ensures PageToken(Document([
              Element("html", map[], [
                Element("body", map[], [
                  Element("form", map[], [
                    Element("div", map[], [
                      Element("input", map["value" := "tok"], []),
                      Element("input", map["value" := "x"], [])])])])])]))
         == Ok("tok")
  {
    var i1 := Element("input", map["value" := "tok"], []);
    var i2 := Element("input", map["value" := "x"], []);
    NestedFirstInput(map[], map[], map[], map[], i1, [i2]);
    assert [i1] + [i2] == [i1, i2];
    assert GetAttribute(i1, "value") == "tok";
  }

  /** A page without a form is the fatal missing-form error. */
  lemma NoFormIsFatal(d: Document)
    requires ElementsByTagName(d, "form") == []
    ensures PageToken(d) == Err(Missing("form", 0))
  {
  }

  /** A form whose first input carries `value="abc123"` yields "abc123", even when the
      page has an input with another value before the form. */
  lemma TokenExample()
    ensures PageToken(Document([
              Element("input", map["value" := "stale"], []),
              Element("form", map[], [Element("input", map["value" := "abc123"], [])])]))
         == Ok("abc123")
  {
    var input := Element("input", map["value" := "abc123"], []);
    var form := Element("form", map[], [input]);
    var stray := Element("input", map["value" := "stale"], []);
    assert ForestByTag([stray], "form") == [] by {
      assert ForestByTag(stray.children, "form") == [];
      assert [stray][1..] == [];
    }
    assert ForestByTag([form], "form") == [form] by {
      assert ForestByTag(input.children, "form") == [];
      assert ForestByTag([input], "form") == [] by { assert [input][1..] == []; }
      assert [form][1..] == [];
    }
    assert [stray, form] == [stray] + [form];
    ForestByTagAppend([stray], [form], "form");
    assert ForestByTag([input], "input") == [input] by {
      assert ForestByTag(input.children, "input") == [];
      assert [input][1..] == [];
    }
  }
}
