/** Editor source files and the text-model registry behind them. The registry
    (the editor's model service) maps a file URI to the one live text model for
    it; `createModel` reuses or replaces that model, and a source file's
    `rename` and `dispose` move between models. Text models are referred to by
    handle, so that a source file and the registry can share one. */
module SourceFiles {
  import opened Wrappers
  import opened Text

  datatype Uri = FileUri(path: string)

  /** `monaco.Uri.file(filename)`: the file URI of a path, which gets a leading
      slash when it has none. */
  function UriFile(filename: string): Uri {
    FileUri(if StartsWith(filename, "/") then filename else "/" + filename)
  }

  datatype Language = TypeScript | Json

  /** The language id the editor is given. */
  function LanguageId(l: Language): string {
    match l
    case TypeScript => "typescript"
    case Json => "json"
  }

  /** The language of a file: JSON for names ending in `.json`, TypeScript otherwise. */
  function LanguageFor(filename: string): Language {
    if EndsWith(filename, ".json") then Json else TypeScript
  }

  type ModelId = nat

  datatype TextModel = TextModel(uri: Uri, language: Language, value: string, disposed: bool)

  /** The model service's state: every model ever created, by handle; the live
      model of each URI; and the next fresh handle. */
  datatype Registry = Registry(models: map<ModelId, TextModel>, live: map<Uri, ModelId>, nextId: ModelId) {
    ghost predicate Valid() {
      && (forall id :: id in models ==> id < nextId)
      && (forall u :: u in live ==> live[u] in models && models[live[u]].uri == u && !models[live[u]].disposed)
      && (forall id :: id in models && !models[id].disposed ==> models[id].uri in live && live[models[id].uri] == id)
    }
  }

  /** `monaco.editor.getModel(uri)`: the live model at `uri`, if any. */
  function Lookup(r: Registry, uri: Uri): Option<ModelId> {
    if uri in r.live then Some(r.live[uri]) else None
  }

  /** `model.setValue(value)`. */
  function WithValue(r: Registry, id: ModelId, value: string): Registry
    requires id in r.models
  {
    r.(models := r.models[id := r.models[id].(value := value)])
  }

  /** `model.dispose()`: the model is marked disposed and leaves the URI table;
      disposing a disposed model does nothing. */
  function WithDisposed(r: Registry, id: ModelId): Registry
    requires id in r.models
  {
    var m := r.models[id];
    if m.disposed then r
    else
      Registry(r.models[id := m.(disposed := true)],
               if m.uri in r.live && r.live[m.uri] == id then r.live - {m.uri} else r.live,
               r.nextId)
  }

  /** `monaco.editor.createModel(value, language, uri)`: a new model under a
      fresh handle, live at `uri` (the editor refuses a URI that already has one). */
  function WithAdded(r: Registry, value: string, language: Language, uri: Uri): Registry
    requires uri !in r.live
  {
    Registry(r.models[r.nextId := TextModel(uri, language, value, false)], r.live[uri := r.nextId], r.nextId + 1)
  }

  datatype Created = Created(registry: Registry, uri: Uri, model: ModelId)

  /** `createModel(filename, code)`: look up the live model at the file's URI;
      keep it and set its value when its language is the file's, otherwise
      dispose it and create a new model. */
  function CreateModelSpec(r: Registry, filename: string, code: string): (c: Created)
    requires r.Valid()
    ensures c.registry.Valid()
    ensures r.models.Keys <= c.registry.models.Keys
  {
    var uri := UriFile(filename);
    var language := LanguageFor(filename);
    match Lookup(r, uri)
    case Some(existing) =>
      if r.models[existing].language == language then
        Created(WithValue(r, existing, code), uri, existing)
      else
        var cleared := WithDisposed(r, existing);
        Created(WithAdded(cleared, code, language, uri), uri, cleared.nextId)
    case None =>
      Created(WithAdded(r, code, language, uri), uri, r.nextId)
  }

  /** The fields of a source file. */
  datatype FileView = FileView(filename: string, code: string, uri: Uri, model: ModelId)

  datatype Renamed = Renamed(file: FileView, registry: Registry)

  /** `rename(newName)` as written: set the name, create the model for the new
      name, take its URI, dispose the model held so far, then hold the new one. */
  function RenameSpec(f: FileView, r: Registry, newName: string): Renamed
    requires r.Valid() && f.model in r.models
  {
    var c := CreateModelSpec(r, newName, f.code);
    Renamed(FileView(newName, f.code, c.uri, c.model), WithDisposed(c.registry, f.model))
  }

  /** `rename(newName)` with the disposal skipped when `createModel` handed back
      the model already held. */
  function RenameCheckedSpec(f: FileView, r: Registry, newName: string): Renamed
    requires r.Valid() && f.model in r.models
  {
    var c := CreateModelSpec(r, newName, f.code);
    var registry := if c.model == f.model then c.registry else WithDisposed(c.registry, f.model);
    Renamed(FileView(newName, f.code, c.uri, c.model), registry)
  }

  /** A source file is attached when it holds the live model of its own URI, in its own language. */
  ghost predicate Attached(f: FileView, r: Registry) {
    && f.uri == UriFile(f.filename)
    && f.model in r.models
    && !r.models[f.model].disposed
    && r.models[f.model].uri == f.uri
    && r.models[f.model].language == LanguageFor(f.filename)
  }

  /** The editor's model service, updated in place. */
  class ModelService {
    var models: map<ModelId, TextModel>
    var live: map<Uri, ModelId>
    var nextId: ModelId

    function State(): Registry
      reads this
    {
      Registry(models, live, nextId)
    }

    constructor ()
      ensures State() == Registry(map[], map[], 0) && State().Valid()
    {
      models, live, nextId := map[], map[], 0;
    }

    method GetModel(uri: Uri) returns (id: Option<ModelId>)
      ensures id == Lookup(State(), uri)
    {
      id := if uri in live then Some(live[uri]) else None;
    }

    method GetLanguageId(id: ModelId) returns (language: Language)
      requires id in models
      ensures language == models[id].language
    {
      language := models[id].language;
    }

    method SetValue(id: ModelId, value: string)
      requires id in models
      modifies this
      ensures State() == WithValue(old(State()), id, value)
    {
      models := models[id := models[id].(value := value)];
    }

    method Dispose(id: ModelId)
      requires id in models
      modifies this
      ensures State() == WithDisposed(old(State()), id)
    {
      var m := models[id];
      if !m.disposed {
        models := models[id := m.(disposed := true)];
        if m.uri in live && live[m.uri] == id {
          live := live - {m.uri};
        }
      }
    }

    method CreateModel(value: string, language: Language, uri: Uri) returns (id: ModelId)
      requires uri !in live
      modifies this
      ensures State() == WithAdded(old(State()), value, language, uri)
      ensures id == old(nextId)
    {
      id := nextId;
      models := models[id := TextModel(uri, language, value, false)];
      live := live[uri := id];
      nextId := nextId + 1;
    }
  }

  /** `createModel(filename, code)` against the model service. */
  method CreateModel(svc: ModelService, filename: string, code: string) returns (uri: Uri, model: ModelId)
    requires svc.State().Valid()
    modifies svc
    ensures Created(svc.State(), uri, model) == CreateModelSpec(old(svc.State()), filename, code)
  {
    uri := UriFile(filename);
    var language := LanguageFor(filename);
    var existing := svc.GetModel(uri);
    if existing.Some? {
      var existingLanguage := svc.GetLanguageId(existing.value);
      if existingLanguage == language {
        svc.SetValue(existing.value, code);
        model := existing.value;
        return;
      }
      svc.Dispose(existing.value);
    }
    model := svc.CreateModel(code, language, uri);
  }

  /** What `useSourceFile` returns: a file's name, text, URI and model. */
  class SourceFile {
    var filename: string
    var code: string
    var uri: Uri
    var model: ModelId

    function View(): FileView
      reads this
    {
      FileView(filename, code, uri, model)
    }

    /** `useSourceFile(filename, code)`. */
    constructor (svc: ModelService, filename: string, code: string)
      requires svc.State().Valid()
      modifies svc
      ensures var c := CreateModelSpec(old(svc.State()), filename, code);
              View() == FileView(filename, code, c.uri, c.model) && svc.State() == c.registry
    {
      var u, m := CreateModel(svc, filename, code);
      this.filename := filename;
      this.code := code;
      this.uri := u;
      this.model := m;
    }

    /** `rename(newName)`, as written. */
    method Rename(svc: ModelService, newName: string)
      requires svc.State().Valid() && model in svc.models
      modifies this, svc
      ensures var s := RenameSpec(old(View()), old(svc.State()), newName);
              View() == s.file && svc.State() == s.registry
    {
      filename := newName;
      var u, m := CreateModel(svc, newName, code);
      uri := u;
      svc.Dispose(model);
      model := m;
    }

    /** `rename(newName)`, disposing the previous model only when it is not the one now held. */
    method RenameChecked(svc: ModelService, newName: string)
      requires svc.State().Valid() && model in svc.models
      modifies this, svc
      ensures var s := RenameCheckedSpec(old(View()), old(svc.State()), newName);
              View() == s.file && svc.State() == s.registry
    {
      filename := newName;
      var u, m := CreateModel(svc, newName, code);
      uri := u;
      if m != model {
        svc.Dispose(model);
      }
      model := m;
    }

    /** `dispose()`: dispose the model held; the file itself is unchanged. */
    method Dispose(svc: ModelService)
      requires model in svc.models
      modifies svc
      ensures svc.State() == WithDisposed(old(svc.State()), model)
    {
      svc.Dispose(model);
    }
  }

  /** The language is JSON exactly when the name is some stem followed by `.json`. */
  lemma LanguageIsJsonIffSuffix(filename: string)
    ensures LanguageFor(filename) == Json <==> exists stem: string :: filename == stem + ".json"
  {
    EndsWithIffStem(filename, ".json");
  }

  /** After `createModel(f, c)` the returned model is the live model at the URI
      of `f`, holds `c`, and has the language chosen for `f`. */
  lemma CreateModelRegisters(r: Registry, filename: string, code: string)
    requires r.Valid()
    ensures var c := CreateModelSpec(r, filename, code);
            && c.uri == UriFile(filename)
            && c.uri in c.registry.live && c.registry.live[c.uri] == c.model
            && c.registry.models[c.model] == TextModel(c.uri, LanguageFor(filename), code, false)
  {
  }

  /** A live model at the URI in the same language is reused: its value is set,
      no model is created and no URI changes hands. */
  lemma CreateModelReuses(r: Registry, filename: string, code: string)
    requires r.Valid()
    requires UriFile(filename) in r.live
    requires r.models[r.live[UriFile(filename)]].language == LanguageFor(filename)
    ensures var c := CreateModelSpec(r, filename, code);
            && c.model == r.live[UriFile(filename)]
            && c.registry.nextId == r.nextId
            && c.registry.live == r.live
            && c.registry.models.Keys == r.models.Keys
  {
  }

  /** A live model at the URI in another language is disposed, and the file gets
      a model under a handle never used before. */
  lemma CreateModelReplaces(r: Registry, filename: string, code: string)
    requires r.Valid()
    requires UriFile(filename) in r.live
    requires r.models[r.live[UriFile(filename)]].language != LanguageFor(filename)
    ensures var c := CreateModelSpec(r, filename, code);
            var existing := r.live[UriFile(filename)];
            && c.registry.models[existing].disposed
            && c.model == r.nextId && c.model !in r.models
            && c.registry.nextId == r.nextId + 1
  {
  }

  /** No model other than the one at the file's URI and the one returned changes. */
  lemma CreateModelLeavesOthers(r: Registry, filename: string, code: string, id: ModelId)
    requires r.Valid() && id in r.models
    requires UriFile(filename) !in r.live || id != r.live[UriFile(filename)]
    ensures var c := CreateModelSpec(r, filename, code);
            id != c.model && c.registry.models[id] == r.models[id]
  {
  }

  /** `dispose()` marks the held model disposed, frees its URI if it was live,
      and touches no other model. */
  lemma DisposeOnlyTouchesModel(r: Registry, id: ModelId, other: ModelId)
    requires r.Valid() && id in r.models && other in r.models && other != id
    ensures var d := WithDisposed(r, id);
            && d.Valid()
            && d.models[id].disposed
            && (!r.models[id].disposed ==> r.models[id].uri !in d.live)
            && d.models[other] == r.models[other]
            && d.nextId == r.nextId
  {
  }

  /** A new source file is attached to the model `createModel` gave it. */
  lemma NewFileAttached(r: Registry, filename: string, code: string)
    requires r.Valid()
    ensures var c := CreateModelSpec(r, filename, code);
            Attached(FileView(filename, code, c.uri, c.model), c.registry)
  {
  }

  /** `rename(n)` sets the name to `n`, keeps the code, takes the URI and model
      built for `n`, and leaves the previous model disposed. */
  lemma RenameUpdatesFile(f: FileView, r: Registry, newName: string)
    requires r.Valid() && f.model in r.models
    ensures var s := RenameSpec(f, r, newName);
            var c := CreateModelSpec(r, newName, f.code);
            && s.file.filename == newName
            && s.file.code == f.code
            && s.file.uri == UriFile(newName)
            && s.file.model == c.model
            && s.registry.models[f.model].disposed
  {
  }

  /** The disposal comes after the creation: when the new name's URI differs from
      the file's own, the file ends attached to a live model holding its code. */
  lemma RenameToOtherUriAttaches(f: FileView, r: Registry, newName: string)
    requires r.Valid() && Attached(f, r)
    requires UriFile(newName) != f.uri
    ensures var s := RenameSpec(f, r, newName);
            && Attached(s.file, s.registry)
            && s.registry.models[s.file.model].value == f.code
            && s.registry.Valid()
  {
  }

  /** Renaming onto a URI whose live model is in use elsewhere adopts that model
      and overwrites its text with this file's code. */
  lemma RenameOntoLiveModelAdoptsIt(f: FileView, r: Registry, newName: string)
    requires r.Valid() && Attached(f, r)
    requires UriFile(newName) in r.live && r.live[UriFile(newName)] != f.model
    requires r.models[r.live[UriFile(newName)]].language == LanguageFor(newName)
    ensures var s := RenameSpec(f, r, newName);
            && s.file.model == r.live[UriFile(newName)]
            && s.registry.models[s.file.model].value == f.code
  {
  }

  /** As written, renaming a file to a name with its own URI and language (its
      own name, say) leaves it holding a disposed model that no URI maps to. */
  lemma RenameToSameUriDisposesHeldModel(f: FileView, r: Registry, newName: string)
    requires r.Valid() && Attached(f, r)
    requires UriFile(newName) == f.uri && LanguageFor(newName) == LanguageFor(f.filename)
    ensures var s := RenameSpec(f, r, newName);
            && s.file.model == f.model
            && s.registry.models[s.file.model].disposed
            && s.file.uri !in s.registry.live
            && !Attached(s.file, s.registry)
  {
  }

  /** The concrete case: `main.ts` renamed to `main.ts`. */
  lemma RenameToSameNameExample()
    ensures var r := CreateModelSpec(Registry(map[], map[], 0), "main.ts", "const x: number = 1").registry;
            var f := FileView("main.ts", "const x: number = 1", UriFile("main.ts"), 0);
            RenameSpec(f, r, "main.ts").registry.models[0].disposed
  {
  }

  /** With the disposal skipped for the model already held, every rename leaves
      the file attached to a live model that holds its code. */
  lemma RenameCheckedAttaches(f: FileView, r: Registry, newName: string)
    requires r.Valid() && Attached(f, r)
    ensures var s := RenameCheckedSpec(f, r, newName);
            && s.registry.Valid()
            && Attached(s.file, s.registry)
            && s.registry.models[s.file.model].value == f.code
            && s.file.filename == newName && s.file.code == f.code
  {
  }
}
