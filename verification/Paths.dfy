/** The field accessors of include/x-base.h, as paths from the base object. */
module Paths {

  /** A nesting of the accessors x_firstobj and x_restobj around the base, outermost step first. */
  datatype Path = Base | First(up: Path) | Rest(up: Path)

  const X_BASE := First(Base)
  const META_FIELDS := Rest(Rest(X_BASE))
  const FILES := Rest(First(First(Rest(X_BASE))))
  const FILEIN := First(FILES)
  const FILEOUT := First(Rest(FILES))
  const FILEERR := First(Rest(Rest(FILES)))
  const WRITE_BUF := First(Rest(Rest(Rest(FILES))))
  const BUFFER := First(Rest(Rest(Rest(Rest(FILES)))))
  const PROFILE_ALLOCS := First(First(First(META_FIELDS)))
  const HOOKS := Rest(First(META_FIELDS))
  const HOOK_TYPE_NAME := First(HOOKS)
  const HOOK_UNITS := First(Rest(HOOKS))
  const HOOK_LENGTH := First(Rest(Rest(HOOKS)))
  const HOOK_ERROR := First(Rest(Rest(Rest(HOOKS))))
  const HEAP_FIELDS := First(Rest(META_FIELDS))
  const OBJ_META_EXTRA := First(HEAP_FIELDS)
  const HEAP_MARK := First(Rest(HEAP_FIELDS))
  const HEAP_FREE := First(Rest(Rest(HEAP_FIELDS)))
  const HEAP_MARK_HOOKS := First(Rest(Rest(Rest(HEAP_FIELDS))))
  const HEAP_FREE_HOOKS := First(Rest(Rest(Rest(Rest(HEAP_FIELDS)))))
  const HEAP_MARK_ROOTS := First(Rest(Rest(Rest(Rest(Rest(HEAP_FIELDS))))))
  const HEAP_ROOT_CHAIN := First(Rest(Rest(Rest(Rest(Rest(Rest(HEAP_FIELDS)))))))
  const ALLOC_FIELDS := First(Rest(Rest(META_FIELDS)))
  const ALLOC_COUNT := First(ALLOC_FIELDS)
  const ALLOC_LIMIT := First(Rest(ALLOC_FIELDS))
  const ALLOC_ERROR := First(Rest(Rest(ALLOC_FIELDS)))

  /** The atoms the extra-metadata, count and limit fields hold. */
  const EXTRA_ATOM := First(OBJ_META_EXTRA)
  const COUNT_ATOM := First(ALLOC_COUNT)
  const LIMIT_ATOM := First(ALLOC_LIMIT)

  /** The lists the embedding layer adds to at run time. */
  datatype HeapList = MarkHookList | FreeHookList | MarkRootList

  function ListField(l: HeapList): Path {
    match l
    case MarkHookList => HEAP_MARK_HOOKS
    case FreeHookList => HEAP_FREE_HOOKS
    case MarkRootList => HEAP_MARK_ROOTS
  }

  /** The places the allocator and the collector find by walking from the base. */
  ghost predicate Required(ps: set<Path>) {
    && Base in ps && X_BASE in ps
    && HOOK_ERROR in ps && HEAP_MARK in ps && HEAP_FREE in ps
    && (forall l {:trigger ListField(l)} :: ListField(l) in ps && First(ListField(l)) !in ps)
    && HEAP_ROOT_CHAIN in ps && First(HEAP_ROOT_CHAIN) !in ps
    && ALLOC_ERROR in ps && COUNT_ATOM in ps && LIMIT_ATOM in ps && EXTRA_ATOM in ps
  }
}
