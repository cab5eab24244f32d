/**
  The texture cache: a map from file name to texture. Loading inserts only absent
  names and always succeeds; looking up a missing name falls back to the entry
  "Default", which is created on first need.
 */
module Resources {
  import opened Components

  /** The key of the fallback texture. */
  const DefaultKey: string := "Default"

  /** The texture created when the fallback is first needed. */
  function DefaultTexture(): Texture { Texture(DefaultKey, "png") }

  /** The cache after loadTexture(fileName, extension). */
  function AfterLoad(m: map<string, Texture>, fileName: string, extension: string): (r: map<string, Texture>)
    ensures fileName in r
  {
    if fileName in m then m else m[fileName := Texture(fileName, extension)]
  }

  /** Loading never drops or overwrites an entry, adds exactly the loaded name, and builds it from the arguments when new. */
  lemma LoadAddsOnlyTheName(m: map<string, Texture>, fileName: string, extension: string)
    ensures AfterLoad(m, fileName, extension).Keys == m.Keys + {fileName}
    ensures forall k :: k in m ==> AfterLoad(m, fileName, extension)[k] == m[k]
    ensures fileName in m ==> AfterLoad(m, fileName, extension) == m
    ensures fileName !in m ==> AfterLoad(m, fileName, extension)[fileName] == Texture(fileName, extension)
  {
  }

  /** Loading a name a second time changes nothing, whatever extension is given. */
  lemma LoadIdempotent(m: map<string, Texture>, fileName: string, extension: string, extension2: string)
    ensures AfterLoad(AfterLoad(m, fileName, extension), fileName, extension2) == AfterLoad(m, fileName, extension)
  {
  }

  /** What getTexture returns and the cache it leaves behind. */
  datatype Lookup = Lookup(texture: Texture, cache: map<string, Texture>)

  /** getTexture(fileName): the stored entry; else the "Default" entry, inserted first when absent. */
  function LookupTexture(m: map<string, Texture>, fileName: string): (r: Lookup)
    ensures fileName in r.cache || DefaultKey in r.cache
    ensures fileName in r.cache ==> r.texture == r.cache[fileName]
    ensures fileName !in r.cache ==> r.texture == r.cache[DefaultKey]
  {
    if fileName in m then Lookup(m[fileName], m)
    else if DefaultKey in m then Lookup(m[DefaultKey], m)
    else Lookup(DefaultTexture(), m[DefaultKey := DefaultTexture()])
  }

  /** A present name is answered from the cache, which stays as it was. */
  lemma LookupPresent(m: map<string, Texture>, fileName: string)
    requires fileName in m
    ensures LookupTexture(m, fileName) == Lookup(m[fileName], m)
  {
  }

  /** A missing name gets the "Default" entry; only when that is missing too is it created, from ("Default", "png"). */
  lemma LookupMissing(m: map<string, Texture>, fileName: string)
    requires fileName !in m
    ensures DefaultKey in m ==> LookupTexture(m, fileName) == Lookup(m[DefaultKey], m)
    ensures DefaultKey !in m ==> LookupTexture(m, fileName) == Lookup(DefaultTexture(), m[DefaultKey := DefaultTexture()])
  {
  }

  /** Lookups never drop or overwrite an entry; at most the "Default" key is added. */
  lemma LookupOnlyGrows(m: map<string, Texture>, fileName: string)
    ensures m.Keys <= LookupTexture(m, fileName).cache.Keys <= m.Keys + {DefaultKey}
    ensures forall k :: k in m ==> LookupTexture(m, fileName).cache[k] == m[k]
  {
  }

  /** Repeating a lookup returns the same texture and leaves the cache unchanged. */
  lemma LookupIdempotent(m: map<string, Texture>, fileName: string)
    ensures var r := LookupTexture(m, fileName);
      LookupTexture(r.cache, fileName) == r
  {
  }

  /** The cache as an explicitly constructed object. */
  class ResourceManager {
    var textures: map<string, Texture>

    constructor ()
      ensures textures == map[]
    {
      textures := map[];
    }

    /** loadTexture(): inserts the name unless already present; always reports success. */
    method LoadTexture(fileName: string, extension: string) returns (ok: bool)
      modifies this
      ensures ok
      ensures textures == AfterLoad(old(textures), fileName, extension)
    {
      if fileName in textures {
        return true;
      }
      textures := textures[fileName := Texture(fileName, extension)];
      return true;
    }

    /** getTexture(): the entry for the name, or the "Default" entry, which is created when absent. */
    method GetTexture(fileName: string) returns (t: Texture)
      modifies this
      ensures Lookup(t, textures) == LookupTexture(old(textures), fileName)
    {
      if fileName in textures {
        return textures[fileName];
      }
      var defaultKey := DefaultKey;
      if defaultKey in textures {
        return textures[defaultKey];
      }
      var defaultTexture := Texture(defaultKey, "png");
      textures := textures[defaultKey := defaultTexture];
      return defaultTexture;
    }
  }
}
