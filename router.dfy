/** The `Router`: an ordered registry of template builders and an optional
    wrapper applied to the builder a lookup finds. */
module Routing {
  import opened Wrappers
  import opened Registry

  const NoWrapperMessage := "no template builder wrapper defined"

  class Router {
    /** The registered template builders, in registration order. */
    var templateBuilders: seq<Spec>
    /** Set by the caller after construction; `None` until then. */
    var templateBuilderWrapper: Option<Wrapper>

    /** A fresh router has no builders and no wrapper. */
    constructor ()
      ensures templateBuilders == [] && templateBuilderWrapper == None
    {
      templateBuilders := [];
      templateBuilderWrapper := None;
    }

    /** `_register_processor` applied to `func`: appends one record holding the
        qualifiers (`"*"` for each one given as `None`), the callback's name and
        the callback, and hands the callback back unchanged. This router keeps a
        single processor list, `templateBuilders`, and that is the list appended to. */
    method RegisterProcessor(regionName: Option<string>, sampleName: Option<string>,
                             systematicName: Option<string>, template: Option<string>,
                             func: Callback) returns (registered: Callback)
      modifies this`templateBuilders
      ensures templateBuilders == old(templateBuilders) + [NewSpec(regionName, sampleName, systematicName, template, func)]
      ensures registered == func
    {
      templateBuilders := templateBuilders + [NewSpec(regionName, sampleName, systematicName, template, func)];
      registered := func;
    }

    /** `register_template_builder`: registration into the template builder list. */
    method RegisterTemplateBuilder(regionName: Option<string>, sampleName: Option<string>,
                                   systematicName: Option<string>, template: Option<string>,
                                   func: Callback) returns (registered: Callback)
      modifies this`templateBuilders
      ensures templateBuilders == old(templateBuilders) + [NewSpec(regionName, sampleName, systematicName, template, func)]
      ensures registered == func
    {
      registered := RegisterProcessor(regionName, sampleName, systematicName, template, func);
    }

    /** `_find_template_builder_match`: fails when no wrapper is set; otherwise
        looks the combination up once in `templateBuilders` and returns the
        wrapped builder it finds (keeping the builder's name), or `None`
        without applying the wrapper. `log` holds what the lookup logged. */
    method FindTemplateBuilderMatch(regionName: string, sampleName: string, systematicName: string,
                                    template: string) returns (r: Result<Option<Callback>>, log: seq<string>)
      ensures templateBuilderWrapper.None? <==> r.Err?
      ensures r.Err? ==> r.message == NoWrapperMessage && log == []
      ensures templateBuilderWrapper.Some? ==>
                var found := FindMatch(templateBuilders, regionName, sampleName, systematicName, template);
                log == found.log &&
                (found.func.None? ==> r == Ok(None)) &&
                (found.func.Some? ==> r == Ok(Some(Wrap(templateBuilderWrapper.value, found.func.value))))
      ensures r.Ok? && r.value.Some? ==>
                r.value.value.Wrapped? &&
                Name(r.value.value) == Name(r.value.value.inner) &&
                exists i :: FirstMatchAt(templateBuilders, i, regionName, sampleName, systematicName, template) &&
                            r.value.value.inner == templateBuilders[i].func
    {
      if templateBuilderWrapper.None? {
        return Err(NoWrapperMessage), [];
      }
      var found := FindMatch(templateBuilders, regionName, sampleName, systematicName, template);
      log := found.log;
      if found.func.None? {
        r := Ok(None);
      } else {
        FindMatchNone(templateBuilders, regionName, sampleName, systematicName, template);
        var first := FirstMatch(templateBuilders, regionName, sampleName, systematicName, template);
        FindMatchFirst(templateBuilders, first, regionName, sampleName, systematicName, template);
        r := Ok(Some(Wrap(templateBuilderWrapper.value, found.func.value)));
      }
    }
  }
}
