// The texture cache of TextureManager.cpp: managed textures are looked up by
// file name (with "_sRGB" appended when sRGB is forced), and TextureRef
// handles count how many of them refer to each texture, unloading it from the
// cache when the last handle is destroyed.
module TextureRefs {

  /** Graphics::eDefaultTexture, in declaration order. */
  datatype DefaultTexture =
    | Magenta2D
    | BlackOpaque2D
    | BlackTransparent2D
    | WhiteOpaque2D
    | WhiteTransparent2D
    | DefaultNormalMap
    | BlackCubeMap

  /** A texture's CPU descriptor: not yet set, one of the default textures', or one allocated for it. */
  datatype Srv = Unset | DefaultSrv(kind: DefaultTexture) | Allocated(handle: nat)

  const SRGB_SUFFIX: string := "_sRGB"

  /** The cache key of a file: its name, followed by "_sRGB" when sRGB is forced. */
  function CacheKey(fileName: string, forceSRGB: bool): (key: string)
    ensures |key| == |fileName| + (if forceSRGB then |SRGB_SUFFIX| else 0)
    ensures key[..|fileName|] == fileName
    ensures forceSRGB ==> key[|fileName|..] == SRGB_SUFFIX
  {
    if forceSRGB then fileName + SRGB_SUFFIX else fileName
  }

  /** With the same sRGB flag, different files get different keys. */
  lemma {:induction false} CacheKeyInjective(a: string, b: string, forceSRGB: bool)
    requires CacheKey(a, forceSRGB) == CacheKey(b, forceSRGB)
    ensures a == b
  {
    var k := CacheKey(a, forceSRGB);
    assert |a| == |b|;
    assert a == k[..|a|] == b;
  }

  /** A file whose name ends in "_sRGB" shares its cache entry with the forced-sRGB load of the shorter name. */
  lemma {:induction false} CacheKeyShared(fileName: string)
    ensures CacheKey(fileName + SRGB_SUFFIX, false) == CacheKey(fileName, true)
  {
  }

  class ManagedTexture {
    const mapKey: string
    var isValid: bool
    var isLoading: bool
    var referenceCount: nat
    var srv: Srv
    /** The live TextureRef handles that refer to this texture. */
    ghost var holders: set<TextureRef>

    /** The reference count is the number of live handles, and every one of them refers here. */
    ghost predicate Counted()
      reads this, holders
    {
      referenceCount == |holders| && forall h :: h in holders ==> h.ref == this
    }

    /** A texture about to load: invalid, loading, unreferenced, with no descriptor yet. */
    constructor (fileName: string)
      ensures mapKey == fileName && !isValid && isLoading && referenceCount == 0 && srv == Unset
      ensures holders == {} && Counted()
    {
      mapKey := fileName;
      isValid := false;
      isLoading := true;
      referenceCount := 0;
      srv := Unset;
      holders := {};
    }

    /**
     * CreateFromMemory: an empty file takes the fallback's descriptor; otherwise a
     * descriptor is allocated, and the texture is valid when the DDS data loaded.
     * Loading ends either way.
     */
    method CreateFromMemory(fileSize: nat, fallback: DefaultTexture, descriptor: nat, loaded: bool)
      modifies this`srv, this`isValid, this`isLoading
      ensures !isLoading
      ensures fileSize == 0 ==> srv == DefaultSrv(fallback) && isValid == old(isValid)
      ensures fileSize != 0 ==> srv == Allocated(descriptor) && isValid == (old(isValid) || loaded)
    {
      if fileSize == 0 {
        srv := DefaultSrv(fallback);
      } else {
        srv := Allocated(descriptor);
        if loaded {
          isValid := true;
        }
      }
      isLoading := false;
    }
  }

  /** The TextureManager namespace: the library root and the cache of managed textures by key. */
  class TextureManager {
    var rootPath: string
    var cache: map<string, ManagedTexture>

    constructor ()
      ensures rootPath == "" && cache == map[]
    {
      rootPath := "";
      cache := map[];
    }

    method Initialize(root: string)
      modifies this`rootPath
      ensures rootPath == root
    {
      rootPath := root;
    }

    method Shutdown()
      modifies this`cache
      ensures cache == map[]
    {
      cache := map[];
    }

    /**
     * FindOrLoadTexture: a key already cached returns its texture and changes
     * nothing; otherwise a new texture is cached under the key and created from
     * the file, whose size and load outcome are given.
     */
    method FindOrLoadTexture(fileName: string, fallback: DefaultTexture, forceSRGB: bool,
                             fileSize: nat, descriptor: nat, loaded: bool)
      returns (tex: ManagedTexture)
      modifies this`cache
      ensures CacheKey(fileName, forceSRGB) in cache && cache[CacheKey(fileName, forceSRGB)] == tex
      ensures CacheKey(fileName, forceSRGB) in old(cache) ==>
        tex == old(cache[CacheKey(fileName, forceSRGB)]) && cache == old(cache)
      ensures CacheKey(fileName, forceSRGB) !in old(cache) ==>
        && fresh(tex) && cache == old(cache)[CacheKey(fileName, forceSRGB) := tex]
        && tex.mapKey == CacheKey(fileName, forceSRGB) && tex.referenceCount == 0 && tex.holders == {}
        && !tex.isLoading && tex.isValid == (fileSize != 0 && loaded)
        && tex.srv == (if fileSize == 0 then DefaultSrv(fallback) else Allocated(descriptor))
    {
      var key := CacheKey(fileName, forceSRGB);
      if key in cache {
        tex := cache[key];
        return;
      }
      tex := new ManagedTexture(key);
      cache := cache[key := tex];
      tex.CreateFromMemory(fileSize, fallback, descriptor, loaded);
    }

    /** DestroyTexture: the key leaves the cache, if it was there. */
    method DestroyTexture(key: string)
      modifies this`cache
      ensures cache == old(cache) - {key}
    {
      if key in cache {
        cache := cache - {key};
      }
    }
  }

  /** A counted handle to a managed texture, or a null handle. */
  class TextureRef {
    var ref: ManagedTexture?

    /** A handle to tex (or null); a non-null texture gains one reference. */
    constructor (tex: ManagedTexture?)
      requires tex != null ==> tex.Counted()
      modifies tex
      ensures ref == tex
      ensures tex != null ==> && tex.referenceCount == old(tex.referenceCount) + 1
                              && tex.holders == old(tex.holders) + {this} && tex.Counted()
    {
      ref := tex;
      new;
      if tex != null {
        tex.referenceCount := tex.referenceCount + 1;
        tex.holders := tex.holders + {this};
      }
    }

    /** The copy constructor: the copy refers to the same texture, which gains one reference. */
    constructor Copy(other: TextureRef)
      requires other.ref != null ==> other.ref.Counted()
      modifies other.ref
      ensures ref == other.ref
      ensures ref != null ==> && ref.referenceCount == old(other.ref.referenceCount) + 1
                              && ref.holders == old(other.ref.holders) + {this} && ref.Counted()
    {
      ref := other.ref;
      new;
      if ref != null {
        ref.referenceCount := ref.referenceCount + 1;
        ref.holders := ref.holders + {this};
      }
    }

    /** The handle is live: a non-null handle is one of its texture's holders. */
    ghost predicate Held()
      reads this, ref
    {
      ref != null ==> this in ref.holders
    }

    /**
     * The destructor: the texture loses one reference, and the last one unloads
     * it, taking its key out of the cache. The handle is dead afterwards.
     */
    method Release(manager: TextureManager)
      requires Held() && (ref != null ==> ref.Counted())
      modifies ref, manager`cache
      ensures ref == old(ref)
      ensures ref != null ==> && ref.referenceCount == old(ref.referenceCount) - 1
                              && ref.holders == old(ref.holders) - {this} && ref.Counted()
      ensures manager.cache ==
        if ref != null && old(ref.referenceCount) == 1 then old(manager.cache) - {ref.mapKey} else old(manager.cache)
    {
      if ref != null {
        ref.referenceCount := ref.referenceCount - 1;
        ref.holders := ref.holders - {this};
        if ref.referenceCount == 0 {
          manager.DestroyTexture(ref.mapKey);
        }
      }
    }

    /** Assigning nullptr: the texture loses one reference but is never unloaded, even at zero. */
    method AssignNull()
      requires Held() && (ref != null ==> ref.Counted())
      modifies this`ref, ref
      ensures ref == null
      ensures old(ref) != null ==> && old(ref).referenceCount == old(ref.referenceCount) - 1
                                   && old(ref).holders == old(ref.holders) - {this} && old(ref).Counted()
    {
      if ref != null {
        ref.referenceCount := ref.referenceCount - 1;
        ref.holders := ref.holders - {this};
      }
      ref := null;
    }

    /**
     * Assigning another handle: the old texture loses a reference and the new one
     * gains one, so assigning a handle to the same texture leaves its count alone.
     */
    method Assign(rhs: TextureRef)
      requires Held() && (ref != null ==> ref.Counted())
      requires rhs.ref != null ==> rhs.ref.Counted()
      modifies this`ref, ref, rhs.ref
      ensures ref == old(rhs.ref) && Held()
      ensures old(ref) == ref ==> ref != null ==> ref.referenceCount == old(ref.referenceCount) && ref.holders == old(ref.holders)
      ensures old(ref) != ref ==>
        && (old(ref) != null ==> && old(ref).referenceCount == old(ref.referenceCount) - 1
                                 && old(ref).holders == old(ref.holders) - {this} && old(ref).Counted())
        && (ref != null ==> && ref.referenceCount == old(rhs.ref.referenceCount) + 1
                            && ref.holders == old(rhs.ref.holders) + {this} && ref.Counted())
    {
      if ref != null {
        ref.referenceCount := ref.referenceCount - 1;
        ref.holders := ref.holders - {this};
      }
      ref := rhs.ref;
      if ref != null {
        ref.referenceCount := ref.referenceCount + 1;
        ref.holders := ref.holders + {this};
      }
    }

    /** IsValid: a non-null handle to a texture that loaded. */
    predicate IsValid()
      reads this, ref
    {
      ref != null && ref.isValid
    }

    /** GetSRV: the texture's descriptor, or the magenta default for a null handle. */
    function GetSRV(): Srv
      reads this, ref
    {
      if ref != null then ref.srv else DefaultSrv(Magenta2D)
    }
  }

  /** A null handle is invalid and shows the magenta default texture. */
  lemma NullRefDefaults(r: TextureRef)
    requires r.ref == null
    ensures !r.IsValid() && r.GetSRV() == DefaultSrv(Magenta2D)
  {
  }
}
